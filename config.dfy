/**
 * Profile selection: which service of the configuration file the client
 * talks to, `config use` and the profile list of `config list`.
 */
module Config {
  import opened Wrappers
  import opened Errors
  import opened Mask

  /** One service profile: where the service is and the credentials for it. */
  datatype Item = Item(endpoint: string, accessKeyId: string, secretAccessKey: string, useSsl: bool)

  /**
   * The decoded configuration file. A profile mapped to `None` is one whose
   * entry decoded to a nil pointer.
   */
  datatype S3Config = S3Config(current: string, services: map<string, Option<Item>>)

  /** The current profile is named and present with a non-nil entry. */
  predicate HasCurrent(cfg: S3Config) {
    cfg.current != "" && cfg.current in cfg.services && cfg.services[cfg.current].Some?
  }

  /** Some profile has a non-nil entry. */
  predicate HasUsable(cfg: S3Config) {
    exists name :: name in cfg.services && cfg.services[name].Some?
  }

  /**
   * GetCurrentS3ConfigItem as written. `loaded` is what decoding the
   * configuration produced. The current profile when it is usable; otherwise
   * whichever entry map iteration meets first, which may itself be nil; and
   * with no profiles at all, a nil item and a nil error.
   */
  method GetCurrentS3ConfigItem(loaded: Result<S3Config, Error>) returns (r: Result<Option<Item>, Error>)
    ensures loaded.Err? ==> r == Err(loaded.error)
    ensures loaded.Ok? && HasCurrent(loaded.value) ==>
      r == Ok(loaded.value.services[loaded.value.current])
    ensures loaded.Ok? && !HasCurrent(loaded.value) && loaded.value.services != map[] ==>
      r.Ok? && r.value in loaded.value.services.Values
    ensures loaded.Ok? && !HasCurrent(loaded.value) && loaded.value.services == map[] ==>
      r == Ok(None)
  {
    if loaded.Err? {
      return Err(loaded.error);
    }
    var cfg := loaded.value;
    if !HasCurrent(cfg) {
      if cfg.services != map[] {
        var name :| name in cfg.services;
        return Ok(cfg.services[name]);
      }
      return Ok(None);
    }
    return Ok(cfg.services[cfg.current]);
  }

  /** A configuration without profiles yields neither an item nor an error. */
  method NoProfilesYieldNil() returns (r: Result<Option<Item>, Error>)
    ensures r == Ok(None)
  {
    r := GetCurrentS3ConfigItem(Ok(S3Config("default", map[])));
  }

  /**
   * The selection with the error the source's comment promises: the current
   * profile when it is usable, otherwise any profile with a non-nil entry,
   * and an error when there is none.
   */
  method CurrentProfile(loaded: Result<S3Config, Error>) returns (r: Result<Item, Error>)
    ensures loaded.Err? ==> r == Err(loaded.error)
    ensures loaded.Ok? && HasCurrent(loaded.value) ==>
      r == Ok(loaded.value.services[loaded.value.current].value)
    ensures loaded.Ok? && !HasCurrent(loaded.value) ==>
      (r.Ok? <==> HasUsable(loaded.value)) &&
      (r.Ok? ==> Some(r.value) in loaded.value.services.Values) &&
      (r.Err? ==> r.error == Invalid(NoProfile))
  {
    if loaded.Err? {
      return Err(loaded.error);
    }
    var cfg := loaded.value;
    if HasCurrent(cfg) {
      return Ok(cfg.services[cfg.current].value);
    }
    var usable := set name | name in cfg.services && cfg.services[name].Some?;
    if usable == {} {
      forall n | n in cfg.services
        ensures cfg.services[n].None?
      {
        assert n !in usable;
      }
      return Err(Invalid(NoProfile));
    }
    var name :| name in usable;
    assert cfg.services[name] in cfg.services.Values;
    return Ok(cfg.services[name].value);
  }

  /** `config use`: only a profile the file defines can become current; the services stay as they are. */
  function UseProfile(loaded: Result<S3Config, Error>, name: string): (r: Result<S3Config, Error>)
    ensures r.Ok? <==> loaded.Ok? && name in loaded.value.services
    ensures loaded.Err? ==> r == Err(Wrapped(LoadConfigFailed, loaded.error))
    ensures loaded.Ok? && name !in loaded.value.services ==> r == Err(Invalid(UnknownProfile(name)))
    ensures r.Ok? ==> r.value.current == name && r.value.services == loaded.value.services
  {
    if loaded.Err? then Err(Wrapped(LoadConfigFailed, loaded.error))
    else if name !in loaded.value.services then Err(Invalid(UnknownProfile(name)))
    else Ok(loaded.value.(current := name))
  }

  /** After `config use` of a named profile with an entry, the selection picks exactly that entry. */
  lemma UseThenSelect(cfg: S3Config, name: string)
    requires name != "" && name in cfg.services && cfg.services[name].Some?
    ensures UseProfile(Ok(cfg), name).Ok?
    ensures HasCurrent(UseProfile(Ok(cfg), name).value)
    ensures var used := UseProfile(Ok(cfg), name).value; used.services[used.current] == cfg.services[name]
  {
  }

  /** `config use ""` succeeds only when "" names a profile, and then leaves the choice to the fallback. */
  lemma UseEmptyNameFallsBack(cfg: S3Config)
    requires "" in cfg.services
    ensures UseProfile(Ok(cfg), "").Ok? && !HasCurrent(UseProfile(Ok(cfg), "").value)
  {
  }

  /** One line of the profile list: the name and whether it is marked as current. */
  datatype ProfileLine = ProfileLine(name: string, current: bool)

  /** What `config list` shows: the selected profile (its secret only masked) and every profile name. */
  datatype Listing = Listing(profile: Item, maskedSecret: string, profiles: seq<ProfileLine>)

  /**
   * `config list`, with the selection that reports a missing profile. Each
   * profile is listed once, in an unspecified order, and exactly the one
   * named by `current` is marked.
   */
  method ConfigList(loaded: Result<S3Config, Error>) returns (r: Result<Listing, Error>)
    ensures loaded.Err? ==> r == Err(loaded.error)
    ensures loaded.Ok? ==> (r.Ok? <==> HasCurrent(loaded.value) || HasUsable(loaded.value))
    ensures r.Ok? ==> Some(r.value.profile) in loaded.value.services.Values
    ensures r.Ok? && HasCurrent(loaded.value) ==> Some(r.value.profile) == loaded.value.services[loaded.value.current]
    ensures r.Ok? ==> MaskOf(r.value.profile.secretAccessKey, r.value.maskedSecret)
    ensures r.Ok? ==> var lines := r.value.profiles;
      |lines| == |loaded.value.services| &&
      (forall i :: 0 <= i < |lines| ==> lines[i].name in loaded.value.services) &&
      (forall i, j :: 0 <= i < j < |lines| ==> lines[i].name != lines[j].name) &&
      (forall i :: 0 <= i < |lines| ==> (lines[i].current <==> lines[i].name == loaded.value.current))
  {
    var item := CurrentProfile(loaded);
    if item.Err? {
      return Err(item.error);
    }
    var cfg := loaded.value;
    var masked := MaskString(item.value.secretAccessKey);
    var remaining := cfg.services.Keys;
    var lines: seq<ProfileLine> := [];
    while remaining != {}
      invariant remaining <= cfg.services.Keys
      invariant |lines| + |remaining| == |cfg.services|
      invariant forall i :: 0 <= i < |lines| ==> lines[i].name in cfg.services && lines[i].name !in remaining
      invariant forall i, j :: 0 <= i < j < |lines| ==> lines[i].name != lines[j].name
      invariant forall i :: 0 <= i < |lines| ==> (lines[i].current <==> lines[i].name == cfg.current)
      decreases |remaining|
    {
      var name :| name in remaining;
      lines := lines + [ProfileLine(name, name == cfg.current)];
      remaining := remaining - {name};
    }
    r := Ok(Listing(item.value, masked, lines));
  }
}
