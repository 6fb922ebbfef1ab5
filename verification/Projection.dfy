/**
 * Replacing one service: the compose file written for the replacement, and the check of how the provider reads it
 * back. The file spells every dollar doubled; the provider interpolates it and prints the result its own way.
 */
module Projection {
  import opened Wrappers
  import opened Dollars

  /** A resolved compose file: services, and the real names of its networks and volumes ("" when it gives none). */
  datatype Compose = Compose(services: map<string, Service>, networks: map<string, string>,
                             volumes: map<string, string>)

  /** What was inspected of the running container. */
  datatype Inspected = Inspected(running: map<string, string>, networks: set<string>, volumes: set<string>,
                                 binds: set<string>)

  /** The service shares a namespace of another container. */
  predicate SharesNamespace(svc: Service) {
    "pod" in svc || "network_mode" in svc || "links" in svc || "volumes_from" in svc
  }

  function RealName(declared: map<string, string>, key: string, project: string): string {
    if key in declared && declared[key] != "" then declared[key] else project + "_" + key
  }

  // ---- networks ----

  function NetworkKeys(svc: Service): (keys: set<string>)
    ensures keys != {}
  {
    match Field(svc, "networks")
    case Dict(m) => if m == map[] then {"default"} else m.Keys
    case List(l) =>
      var names := set v | v in l && v.Str? :: v.s;
      if names == {} then {"default"} else names
    case _ => {"default"}
  }

  function ResolvedNetworks(svc: Service, declared: map<string, string>, project: string): map<string, string> {
    map k | k in NetworkKeys(svc) :: RealName(declared, k, project)
  }

  // ---- mounts ----

  function UpToColon(s: string): string {
    if |s| == 0 || s[0] == ':' then "" else [s[0]] + UpToColon(s[1..])
  }

  function SourceOf(entry: Value): string {
    match entry
    case Str(s) => UpToColon(s)
    case Dict(m) => if "source" in m && m["source"].Str? then m["source"].s else ""
    case _ => ""
  }

  /** A mount in the short or in the long form. */
  predicate WellFormed(entry: Value) {
    entry.Str? || (entry.Dict? && ("source" in entry.m ==> entry.m["source"].Str?))
  }

  predicate BindMount(entry: Value) {
    var source := SourceOf(entry);
    (entry.Dict? && Field(entry.m, "type") == Str("bind")) || (|source| > 0 && source[0] in "/.~")
  }

  /** The refusal of a mount that the running container does not have. */
  function MountRefusal(entry: Value, declared: map<string, string>, project: string, inspected: Inspected)
    : Option<Refusal>
  {
    var source := SourceOf(entry);
    if !WellFormed(entry) then Some(Malformed)
    else if BindMount(entry) then
      if |source| == 0 || source[0] != '/' then Some(Input)
      else if source !in inspected.binds then Some(Ownership)
      else None
    else if RealName(declared, source, project) !in inspected.volumes then Some(Ownership)
    else None
  }

  function Volumes(svc: Service): seq<Value> {
    match Field(svc, "volumes")
    case List(l) => l
    case _ => []
  }

  /** Every mount is the running container's, and `out` names exactly the named volumes among them. */
  ghost predicate Mounted(entries: seq<Value>, declared: map<string, string>, project: string, inspected: Inspected,
                          out: map<string, string>)
  {
    && (forall i | 0 <= i < |entries| :: MountRefusal(entries[i], declared, project, inspected).None?)
    && (forall s :: s in out <==> exists i | 0 <= i < |entries| :: !BindMount(entries[i]) && SourceOf(entries[i]) == s)
    && (forall s | s in out :: out[s] == RealName(declared, s, project))
  }

  lemma MountNext(entries: seq<Value>, entry: Value, declared: map<string, string>, project: string,
                  inspected: Inspected, out: map<string, string>)
    requires Mounted(entries, declared, project, inspected, out)
    requires MountRefusal(entry, declared, project, inspected).None?
    ensures var source := SourceOf(entry);
            Mounted(entries + [entry], declared, project, inspected,
                    if BindMount(entry) then out else out[source := RealName(declared, source, project)])
  {
    var source, all := SourceOf(entry), entries + [entry];
    var more := if BindMount(entry) then out else out[source := RealName(declared, source, project)];
    hide SourceOf, BindMount, MountRefusal, RealName;
    forall s
      ensures s in more <==> exists i | 0 <= i < |all| :: !BindMount(all[i]) && SourceOf(all[i]) == s
    {
      if s in out {
        var i :| 0 <= i < |entries| && !BindMount(entries[i]) && SourceOf(entries[i]) == s;
        assert all[i] == entries[i];
      }
      if s == source && !BindMount(entry) {
        assert all[|entries|] == entry;
      }
    }
  }

  /** The refusal of the first mount that is refused. */
  function FirstRefusal(entries: seq<Value>, declared: map<string, string>, project: string, inspected: Inspected)
    : (r: Option<Refusal>)
    ensures r.None? <==> forall i | 0 <= i < |entries| :: MountRefusal(entries[i], declared, project, inspected).None?
  {
    if entries == [] then None
    else
      var first := MountRefusal(entries[0], declared, project, inspected);
      var rest := FirstRefusal(entries[1..], declared, project, inspected);
      assert entries == [entries[0]] + entries[1..];
      if first.Some? then first else rest
  }

  lemma {:induction false} FirstRefusalAt(entries: seq<Value>, declared: map<string, string>, project: string,
                                          inspected: Inspected, i: nat)
    requires i < |entries| && MountRefusal(entries[i], declared, project, inspected).Some?
    requires forall j | 0 <= j < i :: MountRefusal(entries[j], declared, project, inspected).None?
    ensures FirstRefusal(entries, declared, project, inspected)
         == MountRefusal(entries[i], declared, project, inspected)
  {
    hide MountRefusal;
    if i > 0 {
      assert entries[1..][i - 1] == entries[i];
      FirstRefusalAt(entries[1..], declared, project, inspected, i - 1);
    }
  }

  // ---- what the mounts and networks of a compose file mean ----

  /**
   * A mount of this source: `name` or `name:rest` in the short form, with no colon in the name, and in the long form
   * what is under "source", or nothing.
   */
  ghost predicate SourceIs(entry: Value, source: string) {
    match entry
    case Str(s) => ':' !in source && (s == source || exists rest :: s == source + ":" + rest)
    case Dict(m) => if "source" in m then m["source"] == Str(source) else source == ""
    case _ => false
  }

  /** The mount binds a path: it says so, or its source looks like one. */
  predicate BindsPath(entry: Value, source: string) {
    || (entry.Dict? && "type" in entry.m && entry.m["type"] == Str("bind"))
    || "/" <= source || "." <= source || "~" <= source
  }

  /** The name behind a network or volume key: the declared one, or the key in the project. */
  ghost predicate IsRealName(declared: map<string, string>, key: string, project: string, name: string) {
    (key in declared && declared[key] == name != "")
    || ((key in declared ==> declared[key] == "") && name == project + "_" + key)
  }

  /** The mount is one of the running container: an absolute path it binds, or a volume it has, by its real name. */
  ghost predicate Fits(entry: Value, declared: map<string, string>, project: string, inspected: Inspected) {
    exists source :: SourceIs(entry, source)
      && if BindsPath(entry, source) then "/" <= source && source in inspected.binds
         else exists name :: IsRealName(declared, source, project, name) && name in inspected.volumes
  }

  /** The mount binds a path that is not absolute. */
  ghost predicate RelativePath(entry: Value) {
    exists source :: SourceIs(entry, source) && BindsPath(entry, source) && !("/" <= source)
  }

  /** The entry mounts the volume under this key. */
  ghost predicate NamesVolume(entry: Value, source: string) {
    SourceIs(entry, source) && !BindsPath(entry, source)
  }

  /** All mounts fit, and `out` gives exactly their volumes their real names. */
  ghost predicate DeclaresVolumes(entries: seq<Value>, declared: map<string, string>, project: string,
                                  inspected: Inspected, out: map<string, string>)
  {
    && (forall e | e in entries :: Fits(e, declared, project, inspected))
    && (forall s :: s in out <==> exists e :: e in entries && NamesVolume(e, s))
    && (forall s | s in out :: IsRealName(declared, s, project, out[s]))
  }

  lemma {:induction false} ColonCuts(s: string)
    ensures var b := UpToColon(s); ':' !in b && (s == b || exists rest :: s == b + ":" + rest)
  {
    if s != "" && s[0] != ':' {
      ColonCuts(s[1..]);
      var b := UpToColon(s[1..]);
      if rest :| s[1..] == b + ":" + rest {
        assert s == [s[0]] + b + ":" + rest;
      }
    } else if s != "" {
      assert s == "" + ":" + s[1..];
    }
  }

  lemma CutOnce(s: string, a: string, b: string)
    requires ':' !in a && (s == a || exists rest :: s == a + ":" + rest)
    requires ':' !in b && (s == b || exists rest :: s == b + ":" + rest)
    ensures a == b
  {
    assert a <= s && b <= s;
    assert forall k | 0 <= k < |a| :: a[k] == s[k] != ':';
    assert forall k | 0 <= k < |b| :: b[k] == s[k] != ':';
    assert (|a| < |s| ==> s[|a|] == ':') && (|b| < |s| ==> s[|b|] == ':');
    if |a| == |b| {
      assert a == s[..|a|] && b == s[..|b|];
    }
  }

  /** A well-formed mount has one source, and that is the one the planner looks at. */
  lemma OneSource(entry: Value, source: string)
    requires WellFormed(entry)
    ensures SourceIs(entry, source) <==> source == SourceOf(entry)
  {
    if entry.Str? {
      ColonCuts(entry.s);
      if SourceIs(entry, source) {
        CutOnce(entry.s, source, SourceOf(entry));
      }
    }
  }

  lemma NoSource(entry: Value)
    requires !WellFormed(entry)
    ensures forall source :: !SourceIs(entry, source)
  {
  }

  lemma BindIff(entry: Value)
    requires WellFormed(entry)
    ensures BindMount(entry) <==> BindsPath(entry, SourceOf(entry))
  {
    hide UpToColon;
    var source := SourceOf(entry);
    assert forall c: char :: [c] <= source <==> |source| > 0 && source[0] == c;
    assert "/"[0] == '/' && "."[0] == '.' && "~"[0] == '~';
    assert forall c: char :: c in "/.~" <==> c == '/' || c == '.' || c == '~';
  }

  /** A mount is refused exactly when it does not fit, and as bad input exactly when it binds a relative path. */
  lemma FitsOrRefused(entry: Value, declared: map<string, string>, project: string, inspected: Inspected)
    ensures MountRefusal(entry, declared, project, inspected) ==
              if Fits(entry, declared, project, inspected) then None
              else Some(if RelativePath(entry) then Input
                        else if exists source :: SourceIs(entry, source) then Ownership else Malformed)
  {
    hide SourceIs, BindsPath, BindMount, SourceOf;
    if !WellFormed(entry) {
      NoSource(entry);
      return;
    }
    var source := SourceOf(entry);
    forall s ensures SourceIs(entry, s) <==> s == source {
      OneSource(entry, s);
    }
    BindIff(entry);
    assert "/" <= source <==> |source| > 0 && source[0] == '/' by {
      assert "/"[0] == '/';
    }
    assert IsRealName(declared, source, project, RealName(declared, source, project));
  }

  lemma MountedMeans(entries: seq<Value>, declared: map<string, string>, project: string, inspected: Inspected,
                     out: map<string, string>)
    ensures Mounted(entries, declared, project, inspected, out)
            <==> DeclaresVolumes(entries, declared, project, inspected, out)
  {
    hide Fits, BindMount, BindsPath, SourceOf, SourceIs, WellFormed;
    forall i | 0 <= i < |entries|
      ensures MountRefusal(entries[i], declared, project, inspected).None?
              <==> Fits(entries[i], declared, project, inspected)
      ensures WellFormed(entries[i]) ==>
                forall s :: NamesVolume(entries[i], s) <==> !BindMount(entries[i]) && SourceOf(entries[i]) == s
    {
      FitsOrRefused(entries[i], declared, project, inspected);
      if WellFormed(entries[i]) {
        BindIff(entries[i]);
        forall s ensures SourceIs(entries[i], s) <==> s == SourceOf(entries[i]) {
          OneSource(entries[i], s);
        }
      }
    }
    forall s, name ensures IsRealName(declared, s, project, name) <==> name == RealName(declared, s, project) {
    }
    forall s, e | e in entries && WellFormed(e) ensures NamesVolume(e, s) <==> !BindMount(e) && SourceOf(e) == s {
      var i :| 0 <= i < |entries| && entries[i] == e;
    }
    assert forall i | 0 <= i < |entries| :: entries[i] in entries;
  }

  /** The service lists the network under this key. */
  predicate ListsNetwork(svc: Service, key: string) {
    "networks" in svc && match svc["networks"]
                         case Dict(m) => key in m
                         case List(l) => Str(key) in l
                         case _ => false
  }

  /** The service is attached under this key: it lists it, or it lists none and is on the default network. */
  ghost predicate Attaches(svc: Service, key: string) {
    ListsNetwork(svc, key) || (key == "default" && forall k :: !ListsNetwork(svc, k))
  }

  /** The networks of the service have exactly these real names. */
  ghost predicate OnNetworks(svc: Service, declared: map<string, string>, project: string, names: set<string>) {
    forall name :: name in names <==> exists key :: Attaches(svc, key) && IsRealName(declared, key, project, name)
  }

  lemma KeysAttach(svc: Service, key: string)
    ensures key in NetworkKeys(svc) <==> Attaches(svc, key)
  {
    match Field(svc, "networks")
    case Dict(m) =>
      if m != map[] {
        var k :| k in m;
        assert ListsNetwork(svc, k);
      }
    case List(l) =>
      var names := set v | v in l && v.Str? :: v.s;
      forall k ensures k in names <==> Str(k) in l {
        assert Str(k) in l ==> Str(k).s in names;
      }
      if k :| k in names {
        assert ListsNetwork(svc, k);
      }
    case _ =>
  }

  lemma ResolvedMeans(svc: Service, declared: map<string, string>, project: string, names: set<string>)
    ensures ResolvedNetworks(svc, declared, project).Values == names <==> OnNetworks(svc, declared, project, names)
  {
    hide Attaches, NetworkKeys;
    var resolved := ResolvedNetworks(svc, declared, project);
    forall key ensures key in NetworkKeys(svc) <==> Attaches(svc, key) {
      KeysAttach(svc, key);
    }
    forall key, name ensures IsRealName(declared, key, project, name) <==> name == RealName(declared, key, project) {
    }
    forall name
      ensures name in resolved.Values <==> exists key :: Attaches(svc, key) && IsRealName(declared, key, project, name)
    {
      if key :| Attaches(svc, key) && IsRealName(declared, key, project, name) {
        assert resolved[key] == name;
      }
      if name in resolved.Values {
        var key :| key in resolved && resolved[key] == name;
        assert Attaches(svc, key) && IsRealName(declared, key, project, name);
      }
    }
  }

  /** The service lists this mount. */
  predicate ListsMount(svc: Service, entry: Value) {
    "volumes" in svc && svc["volumes"].List? && entry in svc["volumes"].l
  }

  /**
   * The service can be replaced on what was inspected: it shares no namespace, its networks are the running ones, and
   * all its mounts fit.
   */
  ghost predicate Replaceable(base: Service, effective: Compose, inspected: Inspected, project: string) {
    && "pod" !in base && "network_mode" !in base && "links" !in base && "volumes_from" !in base
    && OnNetworks(base, effective.networks, project, inspected.networks)
    && forall e | ListsMount(base, e) :: Fits(e, effective.volumes, project, inspected)
  }

  /** Check mounts in order; the first refusal counts. Named volumes are declared external under their real names. */
  method Mounts(entries: seq<Value>, declared: map<string, string>, project: string, inspected: Inspected)
    returns (r: Result<map<string, string>, Refusal>)
    ensures r.Ok? ==> Mounted(entries, declared, project, inspected, r.value)
    ensures r.Ok? <==> forall e | e in entries :: Fits(e, declared, project, inspected)
    ensures r.Ok? ==> DeclaresVolumes(entries, declared, project, inspected, r.value)
    ensures FirstRefusal(entries, declared, project, inspected) == if r.Ok? then None else Some(r.error)
  {
    hide SourceOf, RealName, BindMount, FirstRefusal, Mounted, WellFormed, Fits, DeclaresVolumes;
    FirstMisfit(entries, declared, project, inspected);
    var out: map<string, string> := map[];
    NothingMounted(declared, project, inspected);
    for i := 0 to |entries|
      invariant Mounted(entries[..i], declared, project, inspected, out)
      invariant forall j | 0 <= j < i :: MountRefusal(entries[j], declared, project, inspected).None?
    {
      var source := SourceOf(entries[i]);
      if MountRefusal(entries[i], declared, project, inspected).Some? {
        FirstRefusalAt(entries, declared, project, inspected, i);
      }
      if !WellFormed(entries[i]) {
        return Err(Malformed);
      }
      if BindMount(entries[i]) {
        if |source| == 0 || source[0] != '/' {
          return Err(Input);
        }
        if source !in inspected.binds {
          return Err(Ownership);
        }
      } else if RealName(declared, source, project) !in inspected.volumes {
        return Err(Ownership);
      }
      MountNext(entries[..i], entries[i], declared, project, inspected, out);
      assert entries[..i + 1] == entries[..i] + [entries[i]];
      if !BindMount(entries[i]) {
        out := out[source := RealName(declared, source, project)];
      }
    }
    assert entries[..|entries|] == entries;
    MountedMeans(entries, declared, project, inspected, out);
    return Ok(out);
  }

  lemma FirstMisfit(entries: seq<Value>, declared: map<string, string>, project: string, inspected: Inspected)
    ensures FirstRefusal(entries, declared, project, inspected).None?
            <==> forall e | e in entries :: Fits(e, declared, project, inspected)
  {
    hide MountRefusal, Fits, FirstRefusal;
    forall e | e in entries
      ensures MountRefusal(e, declared, project, inspected).None? <==> Fits(e, declared, project, inspected)
    {
      FitsOrRefused(e, declared, project, inspected);
    }
    assert forall i | 0 <= i < |entries| :: entries[i] in entries;
  }

  lemma NothingMounted(declared: map<string, string>, project: string, inspected: Inspected)
    ensures Mounted([], declared, project, inspected, map[])
  {
  }

  /** Mounts that were accepted are accepted again from the names that were written. */
  lemma MountsAgain(entries: seq<Value>, declared: map<string, string>, project: string, inspected: Inspected,
                    out: map<string, string>)
    requires Mounted(entries, declared, project, inspected, out) && "" !in inspected.volumes
    ensures forall i | 0 <= i < |entries| :: MountRefusal(entries[i], out, project, inspected).None?
  {
    forall i | 0 <= i < |entries|
      ensures MountRefusal(entries[i], out, project, inspected).None?
    {
      assert MountRefusal(entries[i], declared, project, inspected).None?;
      if !BindMount(entries[i]) {
        assert SourceOf(entries[i]) in out;
      }
    }
  }

  // ---- the file for the replacement ----

  predicate Falsy(v: Value) {
    v in {Null, Str(""), Num(0), Flag(false), Dict(map[]), List([])}
  }

  /** The keys of a dictionary, each once, in the order it was printed in. */
  predicate Orders(order: seq<string>, v: Value) {
    v.Dict? ==>
      && (forall k | k in order :: k in v.m) && (forall k | k in v.m :: k in order)
      && forall i, j | 0 <= i < j < |order| :: order[i] != order[j]
  }

  /** The key at `i` is the last one that resolves to the name. */
  predicate LastNamed(order: seq<string>, resolved: map<string, string>, name: string, i: nat) {
    && i < |order|
    && order[i] in resolved && resolved[order[i]] == name
    && forall j | i < j < |order| :: !(order[j] in resolved && resolved[order[j]] == name)
  }

  function SettingsOf(v: Value): Value {
    if Falsy(v) then Dict(map[]) else v
  }

  /** The settings of a network in the file: those of the last key that resolves to it, if there is one. */
  ghost predicate AliasesOf(base: Service, order: seq<string>, resolved: map<string, string>, name: string,
                            aliases: Value)
    requires Field(base, "networks").Dict? ==> forall k | k in order :: k in Field(base, "networks").m
  {
    var nets := Field(base, "networks");
    if nets.Dict? && exists i: nat :: LastNamed(order, resolved, name, i) then
      exists i: nat :: LastNamed(order, resolved, name, i) && aliases == SettingsOf(nets.m[order[i]])
    else
      aliases == Dict(map[])
  }

  function Replaced(base: Service, image: string, nets: map<string, Value>): Service {
    (map k | k in base && k != "depends_on" :: base[k])["image" := Str(image)]["networks" := Dict(nets)]
  }

  ghost predicate Wrote(p: Compose, effective: Compose, service: string, base: Service, inspected: Inspected,
                        image: string, project: string, order: seq<string>, nets: map<string, Value>)
  {
    var resolved := ResolvedNetworks(base, effective.networks, project);
    && Orders(order, Field(base, "networks"))
    && nets.Keys == inspected.networks == resolved.Values
    && (forall n | n in nets :: AliasesOf(base, order, resolved, n, nets[n]))
    && p.services == map[service := MapService(Replaced(base, image, nets), EscapeText)]
    && p.networks == (map n | n in inspected.networks :: n)
    && Mounted(Volumes(base), effective.volumes, project, inspected, p.volumes)
    && !SharesNamespace(base)
  }

  /** Why no file is written, if none is: the first of the causes, in the order they are looked for. */
  function BuildRefusal(effective: Compose, service: string, inspected: Inspected, project: string): Option<Refusal> {
    if service !in effective.services then Some(Ownership)
    else
      match Literal(effective.services[service], inspected.running)
      case Err(refusal) => Some(refusal)
      case Ok(base) =>
        if SharesNamespace(base) then Some(Input)
        else if ResolvedNetworks(base, effective.networks, project).Values != inspected.networks then Some(Ownership)
        else FirstRefusal(Volumes(base), effective.volumes, project, inspected)
  }

  lemma VolumesListed(svc: Service)
    ensures forall e :: e in Volumes(svc) <==> ListsMount(svc, e)
  {
  }

  lemma OrderStays(svc: Service, running: map<string, string>, order: seq<string>)
    requires Orders(order, Field(svc, "networks")) && Literal(svc, running).Ok?
    ensures Orders(order, Field(Literal(svc, running).value, "networks"))
  {
    hide Plain, Doubled, UnescapeText, Env, ServiceHasDollar;
  }

  /** `order` is the order in which the service's network keys are printed. */
  method BuildProjection(effective: Compose, service: string, inspected: Inspected, image: string, project: string,
                         order: seq<string>)
    returns (r: Result<Compose, Refusal>)
    requires service in effective.services ==> Orders(order, Field(effective.services[service], "networks"))
    ensures BuildRefusal(effective, service, inspected, project) == if r.Ok? then None else Some(r.error)
    ensures r.Ok? ==>
              var base := Literal(effective.services[service], inspected.running).value;
              exists nets :: Wrote(r.value, effective, service, base, inspected, image, project, order, nets)
    ensures r.Ok? <==>
              && service in effective.services
              && var literal := Literal(effective.services[service], inspected.running);
                 literal.Ok? && Replaceable(literal.value, effective, inspected, project)
    ensures r.Ok? ==>
              var base := Literal(effective.services[service], inspected.running).value;
              && (forall s :: s in r.value.volumes <==> exists e :: ListsMount(base, e) && NamesVolume(e, s))
              && forall s | s in r.value.volumes :: IsRealName(effective.volumes, s, project, r.value.volumes[s])
  {
    hide Literal, ResolvedNetworks, Volumes, FirstRefusal, Orders, AliasesOf, Mounted, OnNetworks, Fits,
         IsRealName, ListsMount, NamesVolume;
    if service !in effective.services {
      return Err(Ownership);
    }
    var literal := ToRuntimeLiteral(effective.services[service], inspected.running);
    if literal.Err? {
      return Err(literal.error);
    }
    var base := literal.value;
    if SharesNamespace(base) {
      return Err(Input);
    }
    var resolved := ResolvedNetworks(base, effective.networks, project);
    ResolvedMeans(base, effective.networks, project, inspected.networks);
    VolumesListed(base);
    if resolved.Values != inspected.networks {
      return Err(Ownership);
    }
    var volumes := Mounts(Volumes(base), effective.volumes, project, inspected);
    if volumes.Err? {
      return Err(volumes.error);
    }
    OrderStays(effective.services[service], inspected.running, order);
    var nets := Attachments(base, order, resolved, inspected.networks);
    var p := Compose(map[service := MapService(Replaced(base, image, nets), EscapeText)],
                     map n | n in inspected.networks :: n, volumes.value);
    assert Wrote(p, effective, service, base, inspected, image, project, order, nets);
    return Ok(p);
  }

  /** The networks of the replacement under their real names, with the settings they had. */
  method Attachments(base: Service, order: seq<string>, resolved: map<string, string>, names: set<string>)
    returns (nets: map<string, Value>)
    requires Orders(order, Field(base, "networks"))
    ensures nets.Keys == names
    ensures forall n | n in nets :: AliasesOf(base, order, resolved, n, nets[n])
  {
    nets := map n | n in names :: Dict(map[]);
    var declared := Field(base, "networks");
    if declared.Dict? {
      for i := 0 to |order|
        invariant nets.Keys == names
        invariant forall n | n in nets :: AliasesOf(base, order[..i], resolved, n, nets[n])
      {
        var key, prior := order[i], nets;
        if key in resolved && resolved[key] in names {
          nets := nets[resolved[key] := SettingsOf(declared.m[key])];
        }
        forall n | n in nets ensures AliasesOf(base, order[..i + 1], resolved, n, nets[n]) {
          AliasesNext(base, order, i, resolved, n, prior[n], nets[n]);
        }
      }
      assert order[..|order|] == order;
    }
  }

  lemma AliasesNext(base: Service, order: seq<string>, i: nat, resolved: map<string, string>, name: string,
                    before: Value, after: Value)
    requires Orders(order, Field(base, "networks")) && Field(base, "networks").Dict? && i < |order|
    requires AliasesOf(base, order[..i], resolved, name, before)
    requires after == if order[i] in resolved && resolved[order[i]] == name
                      then SettingsOf(Field(base, "networks").m[order[i]]) else before
    ensures AliasesOf(base, order[..i + 1], resolved, name, after)
  {
    hide SettingsOf, Field, LastNamed;
    LastNext(order, i, resolved, name);
  }

  lemma LastNext(order: seq<string>, i: nat, resolved: map<string, string>, name: string)
    requires i < |order|
    ensures var some, all := order[..i], order[..i + 1];
            && all[i] == order[i]
            && if order[i] in resolved && resolved[order[i]] == name then LastNamed(all, resolved, name, i)
               else forall j: nat :: (LastNamed(all, resolved, name, j) <==> LastNamed(some, resolved, name, j))
                                     && (j < i ==> all[j] == some[j])
    ensures forall j: nat :: LastNamed(order[..i], resolved, name, j) ==> j < i
  {
    var some, all := order[..i], order[..i + 1];
    assert forall j: nat | j < i :: all[j] == some[j];
    if !(order[i] in resolved && resolved[order[i]] == name) {
      forall j: nat ensures LastNamed(all, resolved, name, j) <==> LastNamed(some, resolved, name, j) {
      }
    }
  }

  // ---- how the provider reads the file ----

  /** A faithful provider undoubles the dollars of the file, and prints the services in its own spelling. */
  function Reading(p: Compose, form: Form): Compose {
    p.(services := map name | name in p.services ::
                     var literal := MapService(p.services[name], UnescapeText);
                     if form == DoubledForm then MapService(literal, EscapeText) else literal)
  }

  function Core(svc: Service): Service {
    map k | k in svc && k !in {"image", "depends_on", "networks"} :: svc[k]
  }

  /** Accept the provider's reading only if it is the replacement and nothing else. */
  function Verify(effective: Compose, service: string, inspected: Inspected, image: string, project: string,
                  again: Compose): Option<Refusal>
    requires service in effective.services
  {
    var baseline := Literal(effective.services[service], inspected.running);
    if baseline.Err? then Some(baseline.error)
    else if again.services.Keys != {service} then Some(Ownership)
    else
      var svc := again.services[service];
      if Field(svc, "image") != Str(image) || !Falsy(Field(svc, "depends_on")) then Some(Ownership)
      else if SharesNamespace(svc) then Some(Input)
      else
        var resolved := Literal(svc, inspected.running);
        if resolved.Err? then Some(resolved.error)
        else if Core(baseline.value) != Core(resolved.value) then Some(Ownership)
        else if ResolvedNetworks(resolved.value, again.networks, project).Values != inspected.networks
        then Some(Ownership)
        else FirstRefusal(Volumes(resolved.value), again.volumes, project, inspected)
  }

  /**
   * The checker accepts a reading exactly when it is this one service, with the new image, in nothing else different
   * from the service that runs, and attached to the same networks and mounts.
   */
  lemma AcceptedMeansSame(effective: Compose, service: string, inspected: Inspected, image: string, project: string,
                          again: Compose, base: Service)
    requires service in effective.services && Literal(effective.services[service], inspected.running) == Ok(base)
    ensures Verify(effective, service, inspected, image, project, again).None? <==>
              && again.services.Keys == {service}
              && var svc := again.services[service];
                 && "image" in svc && svc["image"] == Str(image) && ("depends_on" in svc ==> Falsy(svc["depends_on"]))
                 && "pod" !in svc && "network_mode" !in svc && "links" !in svc && "volumes_from" !in svc
                 && var got := Literal(svc, inspected.running);
                    && got.Ok?
                    && (forall k | k !in {"image", "depends_on", "networks"} ::
                          (k in got.value <==> k in base) && (k in base && k in got.value ==> got.value[k] == base[k]))
                    && OnNetworks(got.value, again.networks, project, inspected.networks)
                    && forall e | ListsMount(got.value, e) :: Fits(e, again.volumes, project, inspected)
  {
    hide Literal, ResolvedNetworks, Volumes, FirstRefusal, Fits, OnNetworks, ListsMount;
    if again.services.Keys == {service} && Literal(again.services[service], inspected.running).Ok? {
      var got := Literal(again.services[service], inspected.running).value;
      CoreSame(base, got);
      ResolvedMeans(got, again.networks, project, inspected.networks);
      VolumesListed(got);
      FirstMisfit(Volumes(got), again.volumes, project, inspected);
    }
  }

  lemma CoreSame(a: Service, b: Service)
    ensures Core(a) == Core(b) <==>
            forall k | k !in {"image", "depends_on", "networks"} ::
              (k in b <==> k in a) && (k in a && k in b ==> b[k] == a[k])
  {
    if Core(a) == Core(b) {
      forall k | k !in {"image", "depends_on", "networks"}
        ensures (k in b <==> k in a) && (k in a && k in b ==> b[k] == a[k])
      {
        assert k in Core(a) <==> k in Core(b);
        assert k in a && k in b ==> Core(a)[k] == Core(b)[k];
      }
    }
  }

  // ---- builder and checker agree ----

  lemma ReplacedFacts(base: Service, image: string, nets: map<string, Value>)
    ensures Env(Replaced(base, image, nets)) == Env(base) && Volumes(Replaced(base, image, nets)) == Volumes(base)
    ensures Field(Replaced(base, image, nets), "environment") == Field(base, "environment")
    ensures Core(Replaced(base, image, nets)) == Core(base)
    ensures SharesNamespace(Replaced(base, image, nets)) == SharesNamespace(base)
    ensures Field(Replaced(base, image, nets), "image") == Str(image)
    ensures Field(Replaced(base, image, nets), "networks") == Dict(nets)
    ensures Field(Replaced(base, image, nets), "depends_on") == Null
  {
  }

  lemma NoNewDollars(base: Service, order: seq<string>, resolved: map<string, string>, image: string,
                     nets: map<string, Value>)
    requires '$' !in image && !ServiceHasDollar(base) && Orders(order, Field(base, "networks"))
    requires forall n | n in nets :: AliasesOf(base, order, resolved, n, nets[n])
    ensures !ServiceHasDollar(Replaced(base, image, nets))
  {
    forall n | n in nets
      ensures !HasDollar(nets[n])
    {
      assert AliasesOf(base, order, resolved, n, nets[n]);
      var declared := Field(base, "networks");
      assert !HasDollar(declared);
    }
    assert !HasDollar(Dict(nets));
  }

  lemma VerifyOutcome(effective: Compose, service: string, inspected: Inspected, image: string, project: string,
                      again: Compose, base: Service, svc: Service, replaced: Service)
    requires service in effective.services && Literal(effective.services[service], inspected.running) == Ok(base)
    requires again.services == map[service := svc]
    requires Field(svc, "image") == Str(image) && Falsy(Field(svc, "depends_on")) && !SharesNamespace(svc)
    requires var got := Literal(svc, inspected.running);
             got in {Err(Input), Ok(replaced)} || (got.Ok? && Core(got.value) != Core(base))
    requires Core(base) == Core(replaced)
    requires ResolvedNetworks(replaced, again.networks, project).Values == inspected.networks
    requires forall m | m in Volumes(replaced) :: MountRefusal(m, again.volumes, project, inspected).None?
    ensures Verify(effective, service, inspected, image, project, again) ==
              var got := Literal(svc, inspected.running);
              if got.Err? then Some(Input) else if got.value == replaced then None else Some(Ownership)
  {
    hide Literal, Core, Field, Falsy, ResolvedNetworks, Volumes, MountRefusal;
  }

  /** How the check of a reading ends, by the evidence of spelling that the reading shows. */
  function ReadVerdict(right: bool, wrong: bool, dollars: bool): Option<Refusal> {
    if wrong then Some(if right then Input else Ownership) else if right || !dollars then None else Some(Input)
  }

  /** Another environment is another core. */
  lemma CoreShows(a: Service, b: Service)
    requires Field(a, "environment") != Field(b, "environment") && a.Keys == b.Keys
    ensures Core(a) != Core(b)
  {
    assert "environment" in a && Core(a)["environment"] == a["environment"];
    assert "environment" in b && Core(b)["environment"] == b["environment"];
  }

  /** The new file has the old environment, so it shows the same evidence. */
  lemma SameEvidence(base: Service, replaced: Service, form: Form, running: map<string, string>)
    requires Field(replaced, "environment") == Field(base, "environment")
    ensures Right(replaced, form, running) == Right(base, form, running)
    ensures Wrong(replaced, form, running) == Wrong(base, form, running)
  {
    hide MapService, MapStrings, EnvDict, Plain, Doubled;
    FieldMapped(base, EscapeText);
    FieldMapped(replaced, EscapeText);
  }

  /**
   * Whether the checker accepts what the builder wrote, for every faithful provider and either spelling: exactly when
   * no drifted environment value reads like the other spelling of the value that runs, and any dollars in the file have
   * a running value to tell their spelling by. A reading with evidence for both spellings, or for none, is refused for
   * that; one with wrong evidence alone is taken for another service.
   */
  lemma VerifyAcceptsBuild(p: Compose, effective: Compose, service: string, base: Service, inspected: Inspected,
                           image: string, project: string, order: seq<string>, nets: map<string, Value>, form: Form)
    requires service in effective.services
    requires Literal(effective.services[service], inspected.running) == Ok(base)
    requires Wrote(p, effective, service, base, inspected, image, project, order, nets)
    requires '$' !in image && "" !in inspected.networks && "" !in inspected.volumes
    ensures Verify(effective, service, inspected, image, project, Reading(p, form)) ==
              ReadVerdict(Right(base, form, inspected.running), Wrong(base, form, inspected.running),
                          ServiceHasDollar(p.services[service]))
  {
    hide Env, Literal, MapService, Replaced, Core, ResolvedNetworks, ServiceHasDollar, MountRefusal, Volumes, Verify,
         Wrote, Spelled, Reading, AliasesOf, SharesNamespace, Falsy, Misread, Right, Wrong, EscapeText;
    var replaced, again := Replaced(base, image, nets), Reading(p, form);
    ReadBack(p, effective, service, base, inspected, image, project, order, nets, form);
    ReplacedFacts(base, image, nets);
    SameEvidence(base, replaced, form, inspected.running);
    LiteralOfSpelled(replaced, form, inspected.running);
    if Wrong(replaced, form, inspected.running) {
      MisreadDiffers(replaced, form, inspected.running);
      SameKeys(replaced, form);
      CoreShows(Misread(replaced, form), replaced);
    }
    VerifyOutcome(effective, service, inspected, image, project, again, base, Spelled(replaced, form), replaced);
  }

  lemma SameKeys(svc: Service, form: Form)
    ensures Misread(svc, form).Keys == svc.Keys
  {
  }

  /** A file without new dollars: what was written for a service without dollars has none either. */
  lemma NoDollarsWritten(p: Compose, effective: Compose, service: string, base: Service, inspected: Inspected,
                         image: string, project: string, order: seq<string>, nets: map<string, Value>)
    requires Wrote(p, effective, service, base, inspected, image, project, order, nets)
    requires '$' !in image && !ServiceHasDollar(base)
    ensures !ServiceHasDollar(p.services[service])
  {
    hide MapService, Replaced, AliasesOf, Mounted, ResolvedNetworks, ServiceHasDollar, SharesNamespace;
    NoNewDollars(base, order, ResolvedNetworks(base, effective.networks, project), image, nets);
    EscapeService(Replaced(base, image, nets));
  }

  /** A literal with dollars has one in the environment that also runs: that is how its spelling was found out. */
  lemma Anchored(svc: Service, base: Service, running: map<string, string>)
    requires PlainNames(Field(svc, "environment")) && Literal(svc, running) == Ok(base)
    ensures PlainNames(Field(base, "environment"))
    ensures ServiceHasDollar(base) ==> Plain(Env(base), running)
  {
    BothTame();
    NamesMapped(svc, UnescapeText);
    PlainIsKept(Field(svc, "environment"), UnescapeText);
    EnvMapped(svc, UnescapeText);
    if !Plain(Env(svc), running) && Doubled(Env(svc), running) {
      var k :| k in Env(svc) && k in running && '$' in running[k] && Env(svc)[k] == EscapeText(running[k]);
      UnescapeUndoesText(running[k]);
      hide Env, EscapeText, UnescapeText, MapService, ServiceHasDollar;
      assert k in Env(base) && Env(base)[k] == running[k];
    }
  }

  lemma NamesMapped(svc: Service, f: string -> string)
    requires Tame(f) && PlainNames(Field(svc, "environment"))
    ensures PlainNames(Field(MapService(svc, f), "environment"))
  {
    var env := Field(svc, "environment");
    PlainIsKept(env, f);
    if env.List? {
      forall i | 0 <= i < |env.l|
        ensures KeyOf(Text(MapStrings(env.l[i], f), "None")) == KeyOf(Text(env.l[i], "None"))
      {
        TextMapped(env.l[i], f, "None");
        ItemMapped(Text(env.l[i], "None"), f);
      }
    }
  }

  /**
   * Where no listed name has a dollar, the condition is on the values of the literal alone: the reading is accepted, or
   * else refused for mixed evidence, exactly by whether a drifted value is confused with the other spelling.
   */
  lemma AcceptedUnlessConfused(p: Compose, effective: Compose, service: string, base: Service, inspected: Inspected,
                               image: string, project: string, order: seq<string>, nets: map<string, Value>,
                               form: Form)
    requires service in effective.services && PlainNames(Field(effective.services[service], "environment"))
    requires Literal(effective.services[service], inspected.running) == Ok(base)
    requires Wrote(p, effective, service, base, inspected, image, project, order, nets)
    requires '$' !in image && "" !in inspected.networks && "" !in inspected.volumes
    ensures Verify(effective, service, inspected, image, project, Reading(p, form)) ==
              if Confused(form, Env(base), inspected.running) then Some(Input) else None
  {
    hide Literal, Verify, Wrote, Right, Wrong, Reading, ServiceHasDollar, Env, Plain, Confused, PlainNames, Misread;
    VerifyAcceptsBuild(p, effective, service, base, inspected, image, project, order, nets, form);
    Anchored(effective.services[service], base, inspected.running);
    EvidenceMeant(base, form, inspected.running);
    if !ServiceHasDollar(base) {
      NoDollarsWritten(p, effective, service, base, inspected, image, project, order, nets);
    }
    if Wrong(base, form, inspected.running) {
      MisreadDiffers(base, form, inspected.running);
    }
  }

  /** What a faithful provider reads from the file, and what the checker looks at in it. */
  lemma ReadBack(p: Compose, effective: Compose, service: string, base: Service, inspected: Inspected,
                 image: string, project: string, order: seq<string>, nets: map<string, Value>, form: Form)
    requires Wrote(p, effective, service, base, inspected, image, project, order, nets)
    requires '$' !in image && "" !in inspected.networks && "" !in inspected.volumes
    ensures service in p.services
    ensures ServiceHasDollar(p.services[service]) == ServiceHasDollar(Replaced(base, image, nets))
    ensures var again, replaced := Reading(p, form), Replaced(base, image, nets);
            var svc := Spelled(replaced, form);
            && again.services == map[service := svc]
            && Field(svc, "image") == Str(image) && Falsy(Field(svc, "depends_on")) && !SharesNamespace(svc)
            && ResolvedNetworks(replaced, again.networks, project).Values == inspected.networks
            && forall m | m in Volumes(replaced) :: MountRefusal(m, again.volumes, project, inspected).None?
  {
    hide MapService, Replaced, Volumes, MountRefusal, Mounted, AliasesOf, Falsy, Spelled, Reading, Core, Env, Orders,
         ResolvedNetworks, SharesNamespace, Field, Literal, ServiceHasDollar, EscapeText;
    var replaced := Replaced(base, image, nets);
    EscapeService(replaced);
    ReplacedFacts(base, image, nets);
    SomeNetwork(base, effective.networks, project);
    ServicesBack(p, service, replaced, form);
    ImageStays(replaced, image, form);
    MountsAgain(Volumes(base), effective.volumes, project, inspected, p.volumes);
    NetworksAgain(replaced, nets, p.networks, project);
  }

  lemma SomeNetwork(svc: Service, declared: map<string, string>, project: string)
    ensures ResolvedNetworks(svc, declared, project).Values != {}
  {
    var k :| k in NetworkKeys(svc);
    var resolved := ResolvedNetworks(svc, declared, project);
    assert resolved[k] in resolved.Values;
  }

  lemma ServicesBack(p: Compose, service: string, svc: Service, form: Form)
    requires p.services == map[service := MapService(svc, EscapeText)]
    ensures Reading(p, form) == p.(services := map[service := Spelled(svc, form)])
  {
    EscapeService(svc);
    hide MapService;
  }

  lemma ImageStays(svc: Service, image: string, form: Form)
    requires Field(svc, "image") == Str(image) && '$' !in image && Field(svc, "depends_on") == Null
    ensures Field(Spelled(svc, form), "image") == Str(image) && Falsy(Field(Spelled(svc, form), "depends_on"))
    ensures SharesNamespace(Spelled(svc, form)) == SharesNamespace(svc)
  {
    EscapeGrows(image);
  }

  lemma NetworksAgain(svc: Service, nets: map<string, Value>, declared: map<string, string>, project: string)
    requires Field(svc, "networks") == Dict(nets) && nets != map[]
    requires declared == (map n | n in nets :: n) && "" !in nets
    ensures ResolvedNetworks(svc, declared, project).Values == nets.Keys
  {
    var resolved := ResolvedNetworks(svc, declared, project);
    assert forall n | n in nets :: n in resolved && resolved[n] == n;
  }

  // ---- one provider for both readings ----

  /**
   * One provider prints the service and reads the file, always in its own spelling. If the planner took the service for
   * the one that was meant, the file is accepted. Otherwise the only evidence of the spelling was wrong, and the file
   * holds another service; whether that one is accepted is decided by its own evidence.
   */
  lemma SameProvider(p: Compose, effective: Compose, service: string, meant: Service, base: Service,
                     inspected: Inspected, image: string, project: string, order: seq<string>,
                     nets: map<string, Value>, form: Form)
    requires service in effective.services && effective.services[service] == Spelled(meant, form)
    requires Literal(effective.services[service], inspected.running) == Ok(base)
    requires Wrote(p, effective, service, base, inspected, image, project, order, nets)
    requires '$' !in image && "" !in inspected.networks && "" !in inspected.volumes
    ensures var verdict := Verify(effective, service, inspected, image, project, Reading(p, form));
            if base == meant then verdict.None?
            else
              && Wrong(meant, form, inspected.running) && !Right(meant, form, inspected.running)
              && base == Misread(meant, form)
              && verdict == ReadVerdict(Right(base, form, inspected.running), Wrong(base, form, inspected.running),
                                        ServiceHasDollar(p.services[service]))
  {
    hide Literal, Verify, Wrote, Right, Wrong, Misread, Reading, ServiceHasDollar;
    VerifyAcceptsBuild(p, effective, service, base, inspected, image, project, order, nets, form);
    LiteralIsMeant(meant, form, inspected.running);
    LiteralOfSpelled(meant, form, inspected.running);
    if !ServiceHasDollar(base) {
      NoDollarsWritten(p, effective, service, base, inspected, image, project, order, nets);
    }
  }

  // A service `s` with nothing but an environment, on its default network.

  const NETS: map<string, Value> := map["p_default" := Dict(map[])]

  function Printed(env: map<string, string>): Compose {
    Compose(map["s" := EnvService(env)], map[], map[])
  }

  function Running(env: map<string, string>): Inspected {
    Inspected(env, {"p_default"}, {}, {})
  }

  function Written(env: map<string, string>): Compose {
    Compose(map["s" := MapService(Replaced(EnvService(env), "i", NETS), EscapeText)],
            map["p_default" := "p_default"], map[])
  }

  lemma OnlyEnv(env: map<string, string>)
    ensures ResolvedNetworks(EnvService(env), map[], "p") == map["default" := "p_default"]
    ensures Volumes(EnvService(env)) == [] && !SharesNamespace(EnvService(env))
    ensures Field(EnvService(env), "networks") == Null
  {
    assert NetworkKeys(EnvService(env)) == {"default"} && "p" + "_" + "default" == "p_default";
  }

  lemma WritesEnv(meant: map<string, string>, taken: map<string, string>, running: map<string, string>)
    ensures Wrote(Written(taken), Printed(meant), "s", EnvService(taken), Running(running), "i", "p", [], NETS)
  {
    hide MapService, EscapeText, Replaced, ResolvedNetworks, EnvService, Volumes, SharesNamespace, Mounted, Field;
    OnlyEnv(taken);
    NothingMounted(map[], "p", Running(running));
    var resolved := map["default" := "p_default"];
    assert resolved["default"] in resolved.Values && resolved.Values == {"p_default"} == NETS.Keys;
    assert (map n | n in Running(running).networks :: n) == map["p_default" := "p_default"];
  }

  /**
   * Drifted values can make the planner write another service than the provider meant, which is then accepted, or
   * refused as the reading of its own file. A refusal takes two of them: one to misread the first service by, and one
   * to confuse the second.
   */
  lemma PlannerMisreads()
    ensures var meant, taken, running := map["B" := "$$"], map["B" := "$"], map["B" := "$"];
            && Literal(EnvService(meant), running) == Ok(EnvService(taken))
            && Wrote(Written(taken), Printed(meant), "s", EnvService(taken), Running(running), "i", "p", [], NETS)
            && Verify(Printed(meant), "s", Running(running), "i", "p", Reading(Written(taken), PlainForm)).None?
    ensures var meant, taken, running := map["A" := "$$", "B" := "$$$$"], map["A" := "$", "B" := "$$"],
                                         map["A" := "$", "B" := "$"];
            && Literal(EnvService(meant), running) == Ok(EnvService(taken))
            && Wrote(Written(taken), Printed(meant), "s", EnvService(taken), Running(running), "i", "p", [], NETS)
            && var again := Reading(Written(taken), PlainForm);
               Verify(Printed(meant), "s", Running(running), "i", "p", again) == Some(Input)
  {
    hide Literal, EnvService, Wrote, Verify, Written, Printed, EscapeText, UnescapeText, Reading;
    MisreadAccepted();
    MisreadRefused();
  }

  lemma MisreadAccepted()
    ensures var meant, taken, running := map["B" := "$$"], map["B" := "$"], map["B" := "$"];
            && Literal(EnvService(meant), running) == Ok(EnvService(taken))
            && Wrote(Written(taken), Printed(meant), "s", EnvService(taken), Running(running), "i", "p", [], NETS)
            && Verify(Printed(meant), "s", Running(running), "i", "p", Reading(Written(taken), PlainForm)).None?
  {
    hide Literal, EnvService, Wrote, Verify, Written, Printed, EscapeText, UnescapeText, Reading;
    SmallTexts();
    var meant, taken := map["B" := "$$"], map["B" := "$"];
    assert taken["B"] == "$" && meant["B"] == "$$" && '$' in taken["B"];
    Misleads(meant, taken, taken, "B");
  }

  lemma MisreadRefused()
    ensures var meant, taken, running := map["A" := "$$", "B" := "$$$$"], map["A" := "$", "B" := "$$"],
                                         map["A" := "$", "B" := "$"];
            && Literal(EnvService(meant), running) == Ok(EnvService(taken))
            && Wrote(Written(taken), Printed(meant), "s", EnvService(taken), Running(running), "i", "p", [], NETS)
            && var again := Reading(Written(taken), PlainForm);
               Verify(Printed(meant), "s", Running(running), "i", "p", again) == Some(Input)
  {
    hide Literal, EnvService, Wrote, Verify, Written, Printed, EscapeText, UnescapeText, Reading;
    SmallTexts();
    var meant, taken := map["A" := "$$", "B" := "$$$$"], map["A" := "$", "B" := "$$"];
    var running := map["A" := "$", "B" := "$"];
    assert taken["A"] == running["A"] == "$" && meant["A"] == "$$" && '$' in running["A"];
    assert taken["B"] == "$$" && running["B"] == "$" && '$' in running["B"];
    Misleads(meant, taken, running, "A");
  }

  lemma Misleads(meant: map<string, string>, taken: map<string, string>, running: map<string, string>, k: string)
    requires taken == Mapped(meant, UnescapeText)
    requires k in meant && k in running && '$' in running[k] && meant[k] == EscapeText(running[k])
    requires !Plain(meant, running) && Plain(taken, running)
    ensures Literal(EnvService(meant), running) == Ok(EnvService(taken))
    ensures Wrote(Written(taken), Printed(meant), "s", EnvService(taken), Running(running), "i", "p", [], NETS)
    ensures Verify(Printed(meant), "s", Running(running), "i", "p", Reading(Written(taken), PlainForm))
            == if Doubled(taken, running) then Some(Input) else None
  {
    hide EnvService, Wrote, Verify, Written, EscapeText, UnescapeText, Reading, MapService, Env, PlainNames, Plain,
         Doubled, Right, Wrong, ServiceHasDollar;
    EnvServiceFacts(meant, UnescapeText);
    EnvServiceFacts(taken, EscapeText);
    assert Doubled(meant, running) by { IsDoubled(meant, running, k); }
    EvidenceMeant(EnvService(meant), PlainForm, running);
    EvidenceMeant(EnvService(taken), PlainForm, running);
    LiteralOfSpelled(EnvService(meant), PlainForm, running);
    WritesEnv(meant, taken, running);
    VerifyAcceptsBuild(Written(taken), Printed(meant), "s", EnvService(taken), Running(running), "i", "p", [], NETS,
                       PlainForm);
  }

  lemma IsDoubled(env: map<string, string>, running: map<string, string>, k: string)
    requires k in env && k in running && '$' in running[k] && env[k] == EscapeText(running[k])
    ensures Doubled(env, running)
  {
  }
}
