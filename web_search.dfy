/** The web-search tool configuration: which models may use web search, the
    lookup of a user location by name, the schema assembled for a request,
    and the three configuration lists loaded lazily from disk and cached. */
module WebSearch {
  import opened Values
  import opened Text

  const SupportedModels: seq<string> :=
    ["claude-3-7-sonnet-20250219", "claude-3-5-sonnet-latest", "claude-3-5-haiku-latest"]

  const SchemaVersion := "web_search_20250305"

  /** An entry of the localizations file. */
  datatype Localization = Localization(
    name: string, locType: string, city: string, region: string, country: string, timezone: string)

  /** The `user_location` block of the schema. */
  datatype UserLocation = UserLocation(
    locType: string, city: string, region: string, country: string, timezone: string)

  /** `{"type", "name", "max_uses"}` plus the optional keys. */
  datatype SearchSchema = SearchSchema(
    schemaType: string, name: string, maxUses: int,
    allowedDomains: Option<seq<string>>, blockedDomains: Option<seq<string>>,
    userLocation: Option<UserLocation>)

  /** What `json.load` gives for each configuration file, read from disk:
      the parsed list or the error raised (a missing file, or malformed JSON,
      whose error class derives from ValueError). */
  datatype ConfigFiles = ConfigFiles(
    allowed: Result<seq<string>>, blocked: Result<seq<string>>, localizations: Result<seq<Localization>>)

  // ---------------------------------------------------------------------
  // validate_model

  /** `'-'.join(m.split('-')[0:3])`: the first three dash-separated parts. */
  function Family(m: string): string {
    var parts := SplitOn(m, '-');
    Join(parts[..Min(3, |parts|)], "-")
  }

  /** `any(model.startswith(Family(s)) for s in supported)`. */
  function AnyFamily(model: string, supported: seq<string>): (r: bool)
    ensures r <==> exists i :: 0 <= i < |supported| && StartsWith(model, Family(supported[i]))
    decreases |supported|
  {
    if supported == [] then false
    else StartsWith(model, Family(supported[0])) || AnyFamily(model, supported[1..])
  }

  predicate ValidateModel(model: string) {
    AnyFamily(model, SupportedModels)
  }

  lemma SplitFamily(a: string, b: string, c: string, rest: string)
    requires '-' !in a && '-' !in b && '-' !in c
    ensures SplitOn(a + "-" + b + "-" + c + "-" + rest, '-') == [a, b, c] + SplitOn(rest, '-')
  {
    var y := b + "-" + (c + "-" + rest);
    SplitTwo(b, c, rest);
    Regroup(a, b, c, rest);
    SplitCons(a, y, '-');
  }

  lemma SplitTwo(b: string, c: string, rest: string)
    requires '-' !in b && '-' !in c
    ensures SplitOn(b + "-" + (c + "-" + rest), '-') == [b, c] + SplitOn(rest, '-')
  {
    SplitCons(c, rest, '-');
    SplitCons(b, c + "-" + rest, '-');
  }

  lemma Regroup(a: string, b: string, c: string, rest: string)
    ensures a + "-" + b + "-" + c + "-" + rest == a + ['-'] + (b + "-" + (c + "-" + rest))
  {
  }

  lemma JoinThree(a: string, b: string, c: string)
    ensures Join([a, b, c], "-") == a + "-" + b + "-" + c
  {
    assert Join([a, b, c], "-") == a + "-" + Join([b, c], "-");
    assert Join([b, c], "-") == b + "-" + Join([c], "-");
  }

  lemma FamilyOf(a: string, b: string, c: string, rest: string)
    requires '-' !in a && '-' !in b && '-' !in c
    ensures Family(a + "-" + b + "-" + c + "-" + rest) == a + "-" + b + "-" + c
  {
    SplitFamily(a, b, c, rest);
    var parts := SplitOn(a + "-" + b + "-" + c + "-" + rest, '-');
    assert parts[..3] == [a, b, c];
    JoinThree(a, b, c);
  }

  lemma SpellFirst()
    ensures "claude" + "-" + "3" + "-" + "7" + "-" + "sonnet-20250219" == SupportedModels[0]
    ensures "claude" + "-" + "3" + "-" + "7" == "claude-3-7"
  {
  }

  lemma SpellSecond()
    ensures "claude" + "-" + "3" + "-" + "5" + "-" + "sonnet-latest" == SupportedModels[1]
    ensures "claude" + "-" + "3" + "-" + "5" + "-" + "haiku-latest" == SupportedModels[2]
    ensures "claude" + "-" + "3" + "-" + "5" == "claude-3-5"
  {
  }

  lemma FamilyOfFirst()
    ensures Family(SupportedModels[0]) == "claude-3-7"
  {
    FamilyOf("claude", "3", "7", "sonnet-20250219");
    SpellFirst();
  }

  lemma FamilyOfSecond()
    ensures Family(SupportedModels[1]) == "claude-3-5"
  {
    FamilyOf("claude", "3", "5", "sonnet-latest");
    SpellSecond();
  }

  lemma FamilyOfThird()
    ensures Family(SupportedModels[2]) == "claude-3-5"
  {
    FamilyOf("claude", "3", "5", "haiku-latest");
    SpellSecond();
  }

  /** Only the family prefix of each supported model is compared, so any
      model name starting with `claude-3-7` or `claude-3-5` is accepted. */
  lemma ValidateModelFamilies(model: string)
    ensures ValidateModel(model) <==> StartsWith(model, "claude-3-7") || StartsWith(model, "claude-3-5")
  {
    FamilyOfFirst();
    FamilyOfSecond();
    FamilyOfThird();
    var s := SupportedModels;
    assert AnyFamily(model, s) == (StartsWith(model, Family(s[0])) || AnyFamily(model, s[1..]));
    assert AnyFamily(model, s[1..]) == (StartsWith(model, Family(s[1])) || AnyFamily(model, s[2..]));
    assert AnyFamily(model, s[2..]) == (StartsWith(model, Family(s[2])) || AnyFamily(model, s[3..]));
    assert s[3..] == [];
  }

  // ---------------------------------------------------------------------
  // find_localization, create_user_location_config

  predicate NameMatches(loc: Localization, name: string) {
    Lower(loc.name) == Lower(name)
  }

  /** The first entry whose name equals `name` ignoring case, or none. */
  function FindIn(locs: seq<Localization>, name: string): (r: Option<Localization>)
    ensures r.None? <==> forall i :: 0 <= i < |locs| ==> !NameMatches(locs[i], name)
    ensures r.Some? ==> exists i :: 0 <= i < |locs| && locs[i] == r.value && NameMatches(locs[i], name)
                                    && forall j :: 0 <= j < i ==> !NameMatches(locs[j], name)
    decreases |locs|
  {
    if locs == [] then None
    else if NameMatches(locs[0], name) then Some(locs[0])
    else
      var r := FindIn(locs[1..], name);
      if r.Some? then
        ghost var i :| 0 <= i < |locs[1..]| && locs[1..][i] == r.value && NameMatches(locs[1..][i], name)
                       && forall j :: 0 <= j < i ==> !NameMatches(locs[1..][j], name);
        assert locs[i + 1] == r.value;
        assert forall j :: 0 <= j < i + 1 ==> !NameMatches(locs[j], name) by {
          forall j | 0 <= j < i + 1 ensures !NameMatches(locs[j], name) {
            if j > 0 { assert locs[j] == locs[1..][j - 1]; }
          }
        }
        r
      else
        assert forall i :: 0 <= i < |locs| ==> !NameMatches(locs[i], name) by {
          forall i | 0 <= i < |locs| ensures !NameMatches(locs[i], name) {
            if i > 0 { assert locs[i] == locs[1..][i - 1]; }
          }
        }
        r
  }

  /** The lookup ignores case in the name asked for. */
  lemma FindInIgnoresCase(locs: seq<Localization>, a: string, b: string)
    requires Lower(a) == Lower(b)
    ensures FindIn(locs, a) == FindIn(locs, b)
    decreases |locs|
  {
    if locs != [] {
      FindInIgnoresCase(locs[1..], a, b);
    }
  }

  /** The fields copied from a found entry; an unknown name is a ValueError. */
  function UserLocationFor(locs: seq<Localization>, name: string): (r: Result<UserLocation>)
    ensures r.Err? <==> FindIn(locs, name).None?
    ensures r.Err? ==> r.error == ValueError
    ensures r.Ok? ==> var loc := FindIn(locs, name).value;
      r.value == UserLocation(loc.locType, loc.city, loc.region, loc.country, loc.timezone)
  {
    match FindIn(locs, name)
    case None => Err(ValueError)
    case Some(loc) => Ok(UserLocation(loc.locType, loc.city, loc.region, loc.country, loc.timezone))
  }

  // ---------------------------------------------------------------------
  // Reading through a cache

  /** What a read through a cache answers: the cached list when there is
      one, otherwise what loading the file gives. */
  function CacheRead<T>(cache: Option<seq<T>>, file: Result<seq<T>>): Result<seq<T>> {
    if cache.Some? then Ok(cache.value) else file
  }

  /** The cache after such a read: a filled cache is kept, an empty one takes
      the loaded list, and a failed load leaves it empty. */
  function CacheAfter<T>(cache: Option<seq<T>>, file: Result<seq<T>>): Option<seq<T>> {
    if cache.Some? then cache else if file.Ok? then Some(file.value) else None
  }

  /** How many times such a read opens the file. */
  function CacheLoads<T>(cache: Option<seq<T>>): nat {
    if cache.Some? then 0 else 1
  }

  // ---------------------------------------------------------------------
  // The tool with its caches

  class WebSearchTool {
    /** The configuration files as they are on disk. */
    var disk: ConfigFiles
    var allowedCache: Option<seq<string>>
    var blockedCache: Option<seq<string>>
    var localizationsCache: Option<seq<Localization>>
    /** How many times a configuration file has been read. */
    var loads: nat

    constructor (disk: ConfigFiles)
      ensures this.disk == disk && loads == 0
      ensures allowedCache.None? && blockedCache.None? && localizationsCache.None?
    {
      this.disk := disk;
      allowedCache := None;
      blockedCache := None;
      localizationsCache := None;
      loads := 0;
    }

    /** `allowed_domains`: the cached list, or the file read and cached. A
        failed read leaves the cache empty. */
    method AllowedDomains() returns (r: Result<seq<string>>)
      modifies this
      ensures disk == old(disk) && blockedCache == old(blockedCache) && localizationsCache == old(localizationsCache)
      ensures old(allowedCache).Some? ==> r == Ok(old(allowedCache).value) && allowedCache == old(allowedCache) && loads == old(loads)
      ensures old(allowedCache).None? ==> r == disk.allowed && loads == old(loads) + 1
                                          && allowedCache == (if r.Ok? then Some(r.value) else None)
    {
      if allowedCache.None? {
        loads := loads + 1;
        var loaded := disk.allowed;
        if loaded.Err? {
          return Err(loaded.error);
        }
        allowedCache := Some(loaded.value);
      }
      r := Ok(allowedCache.value);
    }

    /** `blocked_domains`, cached the same way. */
    method BlockedDomains() returns (r: Result<seq<string>>)
      modifies this
      ensures disk == old(disk) && allowedCache == old(allowedCache) && localizationsCache == old(localizationsCache)
      ensures old(blockedCache).Some? ==> r == Ok(old(blockedCache).value) && blockedCache == old(blockedCache) && loads == old(loads)
      ensures old(blockedCache).None? ==> r == disk.blocked && loads == old(loads) + 1
                                          && blockedCache == (if r.Ok? then Some(r.value) else None)
    {
      if blockedCache.None? {
        loads := loads + 1;
        var loaded := disk.blocked;
        if loaded.Err? {
          return Err(loaded.error);
        }
        blockedCache := Some(loaded.value);
      }
      r := Ok(blockedCache.value);
    }

    /** `localizations`, cached the same way. */
    method Localizations() returns (r: Result<seq<Localization>>)
      modifies this
      ensures disk == old(disk) && allowedCache == old(allowedCache) && blockedCache == old(blockedCache)
      ensures old(localizationsCache).Some? ==> r == Ok(old(localizationsCache).value) && localizationsCache == old(localizationsCache) && loads == old(loads)
      ensures old(localizationsCache).None? ==> r == disk.localizations && loads == old(loads) + 1
                                                && localizationsCache == (if r.Ok? then Some(r.value) else None)
    {
      if localizationsCache.None? {
        loads := loads + 1;
        var loaded := disk.localizations;
        if loaded.Err? {
          return Err(loaded.error);
        }
        localizationsCache := Some(loaded.value);
      }
      r := Ok(localizationsCache.value);
    }

    /** `clear_cache`: all three caches are emptied, so the next access
        reads the files again. */
    method ClearCache()
      modifies this
      ensures allowedCache.None? && blockedCache.None? && localizationsCache.None?
      ensures disk == old(disk) && loads == old(loads)
    {
      allowedCache := None;
      blockedCache := None;
      localizationsCache := None;
    }

    /** `find_localization` over the (possibly freshly loaded) entries. */
    method FindLocalization(name: string) returns (r: Result<Option<Localization>>)
      modifies this
      ensures disk == old(disk) && allowedCache == old(allowedCache) && blockedCache == old(blockedCache)
      ensures localizationsCache.Some? ==> r == Ok(FindIn(localizationsCache.value, name))
      ensures localizationsCache.None? ==> r.Err?
      ensures old(localizationsCache).Some? ==> localizationsCache == old(localizationsCache) && loads == old(loads)
      ensures localizationsCache == CacheAfter(old(localizationsCache), disk.localizations)
      ensures loads == old(loads) + CacheLoads(old(localizationsCache))
      ensures r == match CacheRead(old(localizationsCache), disk.localizations)
                   case Err(e) => Err(e)
                   case Ok(locs) => Ok(FindIn(locs, name))
    {
      var locs := Localizations();
      if locs.Err? {
        return Err(locs.error);
      }
      r := Ok(FindIn(locs.value, name));
    }

    /** `create_user_location_config`. */
    method CreateUserLocationConfig(name: string) returns (r: Result<UserLocation>)
      modifies this
      ensures disk == old(disk) && allowedCache == old(allowedCache) && blockedCache == old(blockedCache)
      ensures localizationsCache.Some? ==> r == UserLocationFor(localizationsCache.value, name)
      ensures localizationsCache.None? ==> r.Err?
      ensures old(localizationsCache).Some? ==> localizationsCache == old(localizationsCache) && loads == old(loads)
      ensures localizationsCache == CacheAfter(old(localizationsCache), disk.localizations)
      ensures loads == old(loads) + CacheLoads(old(localizationsCache))
      ensures r == match CacheRead(old(localizationsCache), disk.localizations)
                   case Err(e) => Err(e)
                   case Ok(locs) => UserLocationFor(locs, name)
    {
      var found := FindLocalization(name);
      if found.Err? {
        return Err(found.error);
      }
      if found.value.None? {
        return Err(ValueError);
      }
      var loc := found.value.value;
      r := Ok(UserLocation(loc.locType, loc.city, loc.region, loc.country, loc.timezone));
    }

    /** `get_web_search_schema`: the model is checked first, then the two
        domain filters must not both be asked for; at most one list of
        domains is attached, and only when it is non-empty; a non-empty
        location name adds the user location. */
    method GetWebSearchSchema(model: string, maxUses: int, useAllowed: bool, useBlocked: bool,
                              userLocation: Option<string>) returns (r: Result<SearchSchema>)
      modifies this
      ensures disk == old(disk)
      ensures !ValidateModel(model) ==> r == Err(ValueError)
      ensures ValidateModel(model) && useAllowed && useBlocked ==> r == Err(ValueError)
      ensures ValidateModel(model) && !(useAllowed && useBlocked) ==>
        (r.Err? <==> || (useAllowed && allowedCache.None?)
                     || (!useAllowed && useBlocked && blockedCache.None?)
                     || (userLocation.Some? && userLocation.value != ""
                         && (localizationsCache.None? || UserLocationFor(localizationsCache.value, userLocation.value).Err?)))
      ensures r.Ok? ==> && r.value.schemaType == SchemaVersion && r.value.name == "web_search"
                        && r.value.maxUses == maxUses
                        && (r.value.allowedDomains.None? || r.value.blockedDomains.None?)
      ensures r.Ok? ==> (r.value.allowedDomains.Some? <==> useAllowed && allowedCache.Some? && allowedCache.value != [])
      ensures r.Ok? && r.value.allowedDomains.Some? ==> r.value.allowedDomains.value == allowedCache.value
      ensures r.Ok? ==> (r.value.blockedDomains.Some? <==>
                           !useAllowed && useBlocked && blockedCache.Some? && blockedCache.value != [])
      ensures r.Ok? && r.value.blockedDomains.Some? ==> r.value.blockedDomains.value == blockedCache.value
      ensures r.Ok? ==> (r.value.userLocation.Some? <==> userLocation.Some? && userLocation.value != "")
      ensures r.Ok? && r.value.userLocation.Some? ==>
        localizationsCache.Some? && Ok(r.value.userLocation.value) == UserLocationFor(localizationsCache.value, userLocation.value)
      // What is read, and from where: the state before the call and the files.
      ensures !ValidateModel(model) || (useAllowed && useBlocked) ==>
        allowedCache == old(allowedCache) && blockedCache == old(blockedCache)
        && localizationsCache == old(localizationsCache) && loads == old(loads)
      ensures ValidateModel(model) && !(useAllowed && useBlocked) ==>
        var readsBlocked := !useAllowed && useBlocked;
        var domainsRead := if useAllowed then CacheRead(old(allowedCache), disk.allowed)
                           else if readsBlocked then CacheRead(old(blockedCache), disk.blocked)
                           else Ok([]);
        var readsLocations := domainsRead.Ok? && userLocation.Some? && userLocation.value != "";
        var locationsRead := CacheRead(old(localizationsCache), disk.localizations);
        && allowedCache == (if useAllowed then CacheAfter(old(allowedCache), disk.allowed) else old(allowedCache))
        && blockedCache == (if readsBlocked then CacheAfter(old(blockedCache), disk.blocked) else old(blockedCache))
        && localizationsCache == (if readsLocations then CacheAfter(old(localizationsCache), disk.localizations)
                                  else old(localizationsCache))
        && loads == old(loads) + (if useAllowed then CacheLoads(old(allowedCache)) else 0)
                               + (if readsBlocked then CacheLoads(old(blockedCache)) else 0)
                               + (if readsLocations then CacheLoads(old(localizationsCache)) else 0)
        && (domainsRead.Err? ==> r == Err(domainsRead.error))
        && (readsLocations && locationsRead.Err? ==> r == Err(locationsRead.error))
        && (readsLocations && locationsRead.Ok? ==>
              (r.Err? <==> UserLocationFor(locationsRead.value, userLocation.value).Err?))
        && (r.Ok? ==> && r.value.allowedDomains == (if useAllowed && domainsRead.value != [] then Some(domainsRead.value) else None)
                      && r.value.blockedDomains == (if readsBlocked && domainsRead.value != [] then Some(domainsRead.value) else None)
                      && r.value.userLocation == (if readsLocations then Some(UserLocationFor(locationsRead.value, userLocation.value).value) else None))
    {
      if !ValidateModel(model) {
        return Err(ValueError);
      }
      if useAllowed && useBlocked {
        return Err(ValueError);
      }
      r := AssembleSchema(maxUses, useAllowed, useBlocked, userLocation);
    }

    /** The schema built once the model and the filters are accepted: the
        allowed list is read when asked for, otherwise the blocked list when
        asked for, each through its cache and attached only when non-empty,
        and a non-empty location name adds the user location. */
    method AssembleSchema(maxUses: int, useAllowed: bool, useBlocked: bool,
                          userLocation: Option<string>) returns (r: Result<SearchSchema>)
      modifies this
      ensures disk == old(disk)
      ensures r.Err? <==> || (useAllowed && allowedCache.None?)
                          || (!useAllowed && useBlocked && blockedCache.None?)
                          || (userLocation.Some? && userLocation.value != ""
                              && (localizationsCache.None? || UserLocationFor(localizationsCache.value, userLocation.value).Err?))
      ensures r.Ok? ==> && r.value.schemaType == SchemaVersion && r.value.name == "web_search"
                        && r.value.maxUses == maxUses
                        && (r.value.allowedDomains.None? || r.value.blockedDomains.None?)
      ensures r.Ok? ==> (r.value.allowedDomains.Some? <==> useAllowed && allowedCache.Some? && allowedCache.value != [])
      ensures r.Ok? && r.value.allowedDomains.Some? ==> r.value.allowedDomains.value == allowedCache.value
      ensures r.Ok? ==> (r.value.blockedDomains.Some? <==>
                           !useAllowed && useBlocked && blockedCache.Some? && blockedCache.value != [])
      ensures r.Ok? && r.value.blockedDomains.Some? ==> r.value.blockedDomains.value == blockedCache.value
      ensures r.Ok? ==> (r.value.userLocation.Some? <==> userLocation.Some? && userLocation.value != "")
      ensures r.Ok? && r.value.userLocation.Some? ==>
        localizationsCache.Some? && Ok(r.value.userLocation.value) == UserLocationFor(localizationsCache.value, userLocation.value)
      ensures
        var readsBlocked := !useAllowed && useBlocked;
        var domainsRead := if useAllowed then CacheRead(old(allowedCache), disk.allowed)
                           else if readsBlocked then CacheRead(old(blockedCache), disk.blocked)
                           else Ok([]);
        var readsLocations := domainsRead.Ok? && userLocation.Some? && userLocation.value != "";
        var locationsRead := CacheRead(old(localizationsCache), disk.localizations);
        && allowedCache == (if useAllowed then CacheAfter(old(allowedCache), disk.allowed) else old(allowedCache))
        && blockedCache == (if readsBlocked then CacheAfter(old(blockedCache), disk.blocked) else old(blockedCache))
        && localizationsCache == (if readsLocations then CacheAfter(old(localizationsCache), disk.localizations)
                                  else old(localizationsCache))
        && loads == old(loads) + (if useAllowed then CacheLoads(old(allowedCache)) else 0)
                               + (if readsBlocked then CacheLoads(old(blockedCache)) else 0)
                               + (if readsLocations then CacheLoads(old(localizationsCache)) else 0)
        && (domainsRead.Err? ==> r == Err(domainsRead.error))
        && (readsLocations && locationsRead.Err? ==> r == Err(locationsRead.error))
        && (readsLocations && locationsRead.Ok? ==>
              (r.Err? <==> UserLocationFor(locationsRead.value, userLocation.value).Err?))
        && (r.Ok? ==> && r.value.allowedDomains == (if useAllowed && domainsRead.value != [] then Some(domainsRead.value) else None)
                      && r.value.blockedDomains == (if readsBlocked && domainsRead.value != [] then Some(domainsRead.value) else None)
                      && r.value.userLocation == (if readsLocations then Some(UserLocationFor(locationsRead.value, userLocation.value).value) else None))
    {
      var schema := SearchSchema(SchemaVersion, "web_search", maxUses, None, None, None);
      var domains: Result<seq<string>> := Ok([]);
      if useAllowed {
        domains := AllowedDomains();
        if domains.Ok? && domains.value != [] {
          schema := schema.(allowedDomains := Some(domains.value));
        }
      } else if useBlocked {
        domains := BlockedDomains();
        if domains.Ok? && domains.value != [] {
          schema := schema.(blockedDomains := Some(domains.value));
        }
      }
      if domains.Err? {
        return Err(domains.error);
      }
      if userLocation.Some? && userLocation.value != "" {
        var location := CreateUserLocationConfig(userLocation.value);
        if location.Err? {
          return Err(location.error);
        }
        schema := schema.(userLocation := Some(location.value));
      }
      r := Ok(schema);
    }
  }
}
