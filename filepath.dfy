/**
 * The parts of Go's `path/filepath` package the client relies on, for Unix
 * paths ('/' separated, no volume names), computed lexically as Go does.
 */
module FilePath {
  import opened GoStrings

  /** The path elements Clean keeps when it meets element `e`. */
  function CleanStep(e: string, rooted: bool, kept: seq<string>): seq<string> {
    if e == "" || e == "." then kept
    else if e == ".." then
      if |kept| > 0 && kept[|kept| - 1] != ".." then kept[..|kept| - 1]
      else if rooted then kept
      else kept + [".."]
    else kept + [e]
  }

  /** Clean's walk over the elements of a path, left to right. */
  function Reduce(elems: seq<string>, rooted: bool, kept: seq<string>): seq<string>
    decreases |elems|
  {
    if elems == [] then kept else Reduce(elems[1..], rooted, CleanStep(elems[0], rooted, kept))
  }

  /**
   * filepath.Clean: repeated separators collapse, "." elements go, ".." removes
   * the element before it (or is dropped at the root), the empty path is ".".
   */
  function Clean(p: string): (r: string)
    ensures r != ""
  {
    if p == "" then "."
    else
      var rooted := p[0] == '/';
      var body := Join(Reduce(Split(p, '/'), rooted, []), '/');
      if rooted then "/" + body else if body == "" then "." else body
  }

  /** filepath.Join(a, b): the two joined with '/' from the first non-empty one on, then cleaned. */
  function JoinPath(a: string, b: string): string {
    if a != "" then Clean(a + "/" + b)
    else if b != "" then Clean(b)
    else ""
  }

  /** A path element that Clean leaves alone. */
  predicate PlainElement(e: string) {
    e != "" && e != "." && e != ".."
  }

  predicate PlainElements(elems: seq<string>) {
    forall i :: 0 <= i < |elems| ==> PlainElement(elems[i])
  }

  /** A relative path with no empty, "." or ".." element: "a/b.txt", not "./a", "a//b" or "a/". */
  predicate Plain(p: string) {
    PlainElements(Split(p, '/'))
  }

  /** Clean keeps plain elements as they are. */
  lemma {:induction false} ReducePlain(elems: seq<string>, rooted: bool, kept: seq<string>)
    requires PlainElements(elems)
    ensures Reduce(elems, rooted, kept) == kept + elems
    decreases |elems|
  {
    if elems != [] {
      assert PlainElement(elems[0]);
      ReducePlain(elems[1..], rooted, kept + [elems[0]]);
      assert kept + [elems[0]] + elems[1..] == kept + elems;
    }
  }

  /** Clean's walk over two lists of elements is the walk over the first, then the second. */
  lemma {:induction false} ReduceAppend(x: seq<string>, y: seq<string>, rooted: bool, kept: seq<string>)
    ensures Reduce(x + y, rooted, kept) == Reduce(y, rooted, Reduce(x, rooted, kept))
    decreases |x|
  {
    if x != [] {
      var k1 := CleanStep(x[0], rooted, kept);
      assert (x + y)[0] == x[0];
      assert (x + y)[1..] == x[1..] + y;
      ReduceAppend(x[1..], y, rooted, k1);
      calc {
        Reduce(x + y, rooted, kept);
        Reduce(x[1..] + y, rooted, k1);
        Reduce(y, rooted, Reduce(x[1..], rooted, k1));
        Reduce(y, rooted, Reduce(x, rooted, kept));
      }
    } else {
      assert x + y == y;
    }
  }

  /** A plain path is already clean. */
  lemma CleanPlain(p: string)
    requires Plain(p)
    ensures Clean(p) == p
  {
    var elems := Split(p, '/');
    assert PlainElement(elems[0]);
    SplitHead(p, '/');
    ReducePlain(elems, false, []);
    assert [] + elems == elems;
    JoinSplit(p, '/');
  }

  /** A plain path is never empty. */
  lemma PlainNonEmpty(p: string)
    requires Plain(p)
    ensures p != ""
  {
    assert PlainElement(Split(p, '/')[0]);
    SplitHead(p, '/');
  }

  /** Joining two plain paths is putting a '/' between them. */
  lemma JoinPlain(a: string, b: string)
    requires Plain(a) && Plain(b)
    ensures JoinPath(a, b) == a + "/" + b
  {
    assert PlainElement(Split(a, '/')[0]);
    SplitHead(a, '/');
    SplitAround(a, b, '/');
    var e := Split(a + "/" + b, '/');
    assert a + "/" + b == a + ['/'] + b;
    forall i | 0 <= i < |e| ensures PlainElement(e[i]) {
      if i < |Split(a, '/')| {
        assert e[i] == Split(a, '/')[i];
      } else {
        assert e[i] == Split(b, '/')[i - |Split(a, '/')|];
      }
    }
    CleanPlain(a + "/" + b);
  }

  /** Joining under a directory written with a trailing '/' gives the same path as without it. */
  lemma JoinPlainUnderSlash(a: string, b: string)
    requires Plain(a) && Plain(b)
    ensures JoinPath(a + "/", b) == a + "/" + b
  {
    var ea, eb := Split(a, '/'), Split(b, '/');
    var p := a + "/" + "/" + b;
    assert PlainElement(ea[0]);
    SplitHead(a, '/');
    assert p[0] == a[0];
    SplitDoubled(a, b);
    ReduceDoubled(ea, eb);
    SplitAround(a, b, '/');
    assert a + "/" + b == a + ['/'] + b;
    JoinSplit(a + "/" + b, '/');
    assert JoinPath(a + "/", b) == Clean(p);
  }

  /** A doubled separator splits into an empty element between the two sides. */
  lemma SplitDoubled(a: string, b: string)
    ensures Split(a + "/" + "/" + b, '/') == Split(a, '/') + ([""] + Split(b, '/'))
  {
    var t := "/" + b;
    assert a + "/" + "/" + b == a + ['/'] + t;
    SplitAround(a, t, '/');
    SplitLeading(b, '/');
  }

  /** Clean drops the empty element between two runs of plain elements. */
  lemma ReduceDoubled(ea: seq<string>, eb: seq<string>)
    requires PlainElements(ea) && PlainElements(eb)
    ensures Reduce(ea + ([""] + eb), false, []) == ea + eb
  {
    ReduceAppend(ea, [""] + eb, false, []);
    ReducePlain(ea, false, []);
    assert [] + ea == ea;
    ReduceAppend([""], eb, false, ea);
    assert Reduce([""], false, ea) == ea;
    ReducePlain(eb, false, ea);
  }

  /** The path without its trailing separators. */
  function TrimTrailingSlashes(p: string): (r: string)
    ensures |r| <= |p| && r == p[..|r|]
    ensures r == "" || r[|r| - 1] != '/'
    ensures forall i :: |r| <= i < |p| ==> p[i] == '/'
  {
    if p != "" && p[|p| - 1] == '/' then TrimTrailingSlashes(p[..|p| - 1]) else p
  }

  /** filepath.Base: the last element, "." for the empty path, "/" for a path of separators. */
  function Base(p: string): (r: string)
    ensures r != ""
    ensures r == "/" || '/' !in r
  {
    if p == "" then "."
    else
      var q := TrimTrailingSlashes(p);
      if q == "" then "/" else q[LastIndexByte(q, '/') + 1..]
  }

  /** The last element of a path under a directory is its base name. */
  lemma BaseUnder(dir: string, name: string)
    requires name != "" && '/' !in name
    ensures Base(dir + "/" + name) == name
  {
    var p := dir + "/" + name;
    assert TrimTrailingSlashes(p) == p;
    assert p[|dir|] == '/';
    assert p[|dir| + 1..] == name;
    LastIndexByteIs(p, '/', |dir|);
  }

  /** filepath.Dir: everything before the last element, cleaned. */
  function Dir(p: string): (r: string)
    ensures r != ""
    ensures '/' !in p ==> r == "."
  {
    Clean(p[..LastIndexByte(p, '/') + 1])
  }

  /** filepath.Dir's result is clean. */
  lemma DirClean(p: string)
    ensures Clean(Dir(p)) == Dir(p)
  {
    var q := p[..LastIndexByte(p, '/') + 1];
    assert Dir(p) == Clean(q);
    CleanIdempotent(q);
  }

  /** The directory of a name under a plain directory is that directory. */
  lemma DirUnder(dir: string, name: string)
    requires Plain(dir) && '/' !in name
    ensures Dir(dir + "/" + name) == dir
  {
    var p := dir + "/" + name;
    assert p[|dir|] == '/';
    assert p[|dir| + 1..] == name;
    LastIndexByteIs(p, '/', |dir|);
    assert p[..|dir| + 1] == dir + ['/'] + "";
    CleanUnderSlash(dir);
  }

  /** A plain directory written with a trailing '/' cleans to itself. */
  lemma CleanUnderSlash(dir: string)
    requires Plain(dir)
    ensures Clean(dir + ['/'] + "") == dir
  {
    var elems := Split(dir, '/');
    assert PlainElement(elems[0]);
    SplitHead(dir, '/');
    SplitAround(dir, "", '/');
    assert Split("", '/') == [""];
    ReduceAppend(elems, [""], false, []);
    ReducePlain(elems, false, []);
    assert [] + elems == elems;
    JoinSplit(dir, '/');
    assert (dir + ['/'] + "")[0] == dir[0];
  }

  // ---------------------------------------------------------------------
  // Clean is idempotent

  /**
   * What Clean's walk leaves: separator-free elements, each plain or "..",
   * no ".." under the root, and every ".." before every plain element.
   */
  predicate Tidy(ks: seq<string>, rooted: bool) {
    (forall i :: 0 <= i < |ks| ==> '/' !in ks[i] && (PlainElement(ks[i]) || ks[i] == "..")) &&
    (forall i :: 0 <= i < |ks| ==> rooted ==> ks[i] != "..") &&
    (forall i, j :: 0 <= i < j < |ks| && ks[j] == ".." ==> ks[i] == "..")
  }

  lemma CleanStepTidy(e: string, rooted: bool, ks: seq<string>)
    requires Tidy(ks, rooted) && '/' !in e
    ensures Tidy(CleanStep(e, rooted, ks), rooted)
  {
    if e == ".." && !rooted && (|ks| == 0 || ks[|ks| - 1] == "..") {
      var r := ks + [".."];
      forall i | 0 <= i < |r|
        ensures r[i] == ".."
      {
        if i < |ks| - 1 {
          assert ks[|ks| - 1] == "..";
        }
      }
    }
  }

  lemma {:induction false} ReduceTidy(elems: seq<string>, rooted: bool, kept: seq<string>)
    requires Tidy(kept, rooted)
    requires forall i :: 0 <= i < |elems| ==> '/' !in elems[i]
    ensures Tidy(Reduce(elems, rooted, kept), rooted)
    decreases |elems|
  {
    if elems != [] {
      CleanStepTidy(elems[0], rooted, kept);
      ReduceTidy(elems[1..], rooted, CleanStep(elems[0], rooted, kept));
    }
  }

  /** Clean's walk leaves tidy elements where it already finds them. */
  lemma {:induction false} ReduceTidyFixed(ks: seq<string>, rooted: bool, acc: seq<string>)
    requires Tidy(acc + ks, rooted)
    ensures Reduce(ks, rooted, acc) == acc + ks
    decreases |ks|
  {
    if ks != [] {
      var e := ks[0];
      assert (acc + ks)[|acc|] == e;
      if e == ".." && |acc| > 0 {
        assert (acc + ks)[|acc| - 1] == acc[|acc| - 1];
      }
      assert CleanStep(e, rooted, acc) == acc + [e];
      assert acc + [e] + ks[1..] == acc + ks;
      ReduceTidyFixed(ks[1..], rooted, acc + [e]);
    }
  }

  /** How Clean writes out the elements its walk kept. */
  function Render(ks: seq<string>, rooted: bool): string {
    var body := Join(ks, '/');
    if rooted then "/" + body else if body == "" then "." else body
  }

  /** A join that starts with a non-empty piece starts with that piece's first byte. */
  lemma JoinHead(parts: seq<string>, sep: char)
    requires |parts| >= 1 && parts[0] != ""
    ensures Join(parts, sep) != "" && Join(parts, sep)[0] == parts[0][0]
  {
  }

  /** Clean of tidy elements written out gives back the same text. */
  lemma CleanRender(ks: seq<string>, rooted: bool)
    requires Tidy(ks, rooted)
    ensures Clean(Render(ks, rooted)) == Render(ks, rooted)
  {
    var r := Render(ks, rooted);
    if ks == [] {
      if rooted {
        assert r == ['/'] + "";
        SplitLeading("", '/');
        assert Split("", '/') == [""];
        assert Reduce(["", ""], true, []) == [];
      } else {
        assert r == ".";
        SplitWithout(".", '/');
      }
    } else {
      var body := Join(ks, '/');
      SplitJoin(ks, '/');
      JoinHead(ks, '/');
      assert [] + ks == ks;
      ReduceTidyFixed(ks, rooted, []);
      if rooted {
        assert r == ['/'] + body;
        SplitLeading(body, '/');
        var elems := [""] + ks;
        assert elems[0] == "" && elems[1..] == ks;
        assert Reduce(elems, true, []) == Reduce(ks, true, []);
      } else {
        assert r == body && r[0] != '/';
      }
    }
  }

  /** filepath.Clean is idempotent: a cleaned path is clean. */
  lemma CleanIdempotent(p: string)
    ensures Clean(Clean(p)) == Clean(p)
  {
    if p == "" {
      CleanRender([], false);
    } else {
      var rooted := p[0] == '/';
      ReduceTidy(Split(p, '/'), rooted, []);
      var ks := Reduce(Split(p, '/'), rooted, []);
      assert Clean(p) == Render(ks, rooted);
      CleanRender(ks, rooted);
    }
  }

  /** Clean keeps a path rooted exactly when it was. */
  lemma CleanKeepsRoot(p: string)
    ensures Clean(p)[0] == '/' <==> p != "" && p[0] == '/'
  {
    if p != "" && p[0] != '/' {
      ReduceTidy(Split(p, '/'), false, []);
      var ks := Reduce(Split(p, '/'), false, []);
      if ks != [] {
        JoinHead(ks, '/');
      }
    }
  }

  /** filepath.Join's result is empty only for two empty inputs, and otherwise clean. */
  lemma JoinClean(a: string, b: string)
    ensures JoinPath(a, b) == "" <==> a == "" && b == ""
    ensures JoinPath(a, b) != "" ==> Clean(JoinPath(a, b)) == JoinPath(a, b)
  {
    if a != "" {
      CleanIdempotent(a + "/" + b);
    } else if b != "" {
      CleanIdempotent(b);
    }
  }

  /** A trailing '/' does not change what a non-empty path cleans to. */
  lemma CleanTrailingSlash(p: string)
    requires p != ""
    ensures Clean(p + "/") == Clean(p)
  {
    var rooted := p[0] == '/';
    assert p + "/" == p + ['/'] + "";
    SplitAround(p, "", '/');
    assert Split("", '/') == [""];
    ReduceAppend(Split(p, '/'), [""], rooted, []);
    assert (p + "/")[0] == p[0];
  }

  /** A doubled separator cleans like a single one. */
  lemma CleanDoubled(a: string, b: string)
    ensures Clean(a + "/" + "/" + b) == Clean(a + "/" + b)
  {
    var ea, eb := Split(a, '/'), Split(b, '/');
    var rooted := (a + "/" + b)[0] == '/';
    assert (a + "/" + "/" + b)[0] == (a + "/" + b)[0];
    SplitDoubled(a, b);
    assert a + "/" + b == a + ['/'] + b;
    SplitAround(a, b, '/');
    ReduceAppend(ea, [""] + eb, rooted, []);
    ReduceAppend([""], eb, rooted, Reduce(ea, rooted, []));
    ReduceAppend(ea, eb, rooted, []);
  }

  /** filepath.Join under a directory written with a trailing '/' is the join under the directory. */
  lemma JoinUnderSlash(a: string, b: string)
    requires a != ""
    ensures JoinPath(a + "/", b) == JoinPath(a, b)
  {
    assert a + "/" + "/" + b == (a + "/") + "/" + b;
    CleanDoubled(a, b);
  }

  /** filepath.Dir of a non-empty path written with a trailing '/' is the path, cleaned. */
  lemma DirUnderSlash(p: string)
    requires p != ""
    ensures Dir(p + "/") == Clean(p)
  {
    var q := p + "/";
    assert q[|p| + 1..] == "";
    LastIndexByteIs(q, '/', |p|);
    assert q[..|p| + 1] == q;
    CleanTrailingSlash(p);
  }

  /** filepath.Ext: the suffix from the last '.' of the last element, or "". */
  function Ext(p: string): (r: string)
    ensures r == "" || (r[0] == '.' && HasSuffix(p, r) && '/' !in r && '.' !in r[1..])
  {
    ExtBefore(p, |p|)
  }

  /** Ext's backward scan, with p[i..] already known to hold no '/' and no '.'. */
  function ExtBefore(p: string, i: nat): (r: string)
    requires i <= |p|
    requires forall k :: i <= k < |p| ==> p[k] != '/' && p[k] != '.'
    ensures r == "" || (r[0] == '.' && HasSuffix(p, r) && '/' !in r && '.' !in r[1..])
    decreases i
  {
    if i == 0 || p[i - 1] == '/' then ""
    else if p[i - 1] == '.' then p[i - 1..]
    else ExtBefore(p, i - 1)
  }
}
