/** Device profiles: which one an open request gets, by the device's name or by the path of its port. */
module Profiles {
  import opened Wrappers
  import opened Console
  import opened Echo
  import opened Admission

  /** A configured device: how its port is recognised, and what a session on it starts from. */
  datatype DeviceProfile = DeviceProfile(name: string, serial: string, vid: Option<nat>, pid: Option<nat>,
    privileged: bool, console: Settings, denyPatterns: seq<string>, allowPatterns: seq<string>)

  datatype PortInfo = PortInfo(path: string, serial: Option<string>, vid: Option<nat>, pid: Option<nat>)

  /** What the server learns from its host; `ports` is missing if the enumeration fails. */
  datatype Host = Host(ports: Option<seq<PortInfo>>, allowed: string -> bool, canonical: string -> string)

  /** What a resolved request opens. */
  datatype Resolved = Resolved(path: string, profile: Profile)

  const UNPROFILED := Profile(Allow, Settings(NoEnding, UnknownEcho, NoPrompt), [], [])

  predicate Matches(p: DeviceProfile, port: PortInfo) {
    && port.serial == Some(p.serial)
    && (p.vid.Some? ==> port.vid == p.vid)
    && (p.pid.Some? ==> port.pid == p.pid)
  }

  /** The session defaults a profile implies. */
  function Implied(p: DeviceProfile): Profile {
    Profile(if p.privileged then Confirm else Allow, p.console, p.denyPatterns, p.allowPatterns)
  }

  /** The port and the profile of a device name; an unknown name is refused before the host is asked. */
  function ByName(h: Host, profiles: seq<DeviceProfile>, name: string): Result<(nat, nat), SerialError> {
    match First(profiles, (p: DeviceProfile) => p.name == name)
    case None => Err(DeviceNotFound)
    case Some(n) =>
      if h.ports.None? then Err(Io)
      else match First(h.ports.value, (q: PortInfo) => h.allowed(q.path) && Matches(profiles[n], q))
        case None => Err(DeviceNotFound)
        case Some(i) => Ok((i, n))
  }

  /** The first port with the canonical path of `path`. */
  function PortAt(h: Host, path: string): Option<nat>
    requires h.ports.Some?
  {
    First(h.ports.value, (q: PortInfo) => h.canonical(q.path) == h.canonical(path))
  }

  /** The profile of a port path: the first that matches the port found there. */
  function ByPath(h: Host, profiles: seq<DeviceProfile>, path: string): Result<Option<nat>, SerialError> {
    if profiles == [] then Ok(None)
    else if h.ports.None? then Err(Io)
    else match PortAt(h, path)
      case None => Ok(None)
      case Some(i) => Ok(First(profiles, (p: DeviceProfile) => Matches(p, h.ports.value[i])))
  }

  /** A request names a port or a device, not both. */
  function Resolve(h: Host, profiles: seq<DeviceProfile>, r: OpenRequest): Result<Resolved, SerialError> {
    if r.port.Some? == r.device.Some? then Err(InvalidParam("port/device"))
    else if r.device.Some? then
      match ByName(h, profiles, r.device.value)
      case Err(e) => Err(e)
      case Ok((i, n)) => Ok(Resolved(h.ports.value[i].path, Implied(profiles[n])))
    else
      match ByPath(h, profiles, r.port.value)
      case Err(e) => Err(e)
      case Ok(None) => Ok(Resolved(r.port.value, UNPROFILED))
      case Ok(Some(n)) => Ok(Resolved(r.port.value, Implied(profiles[n])))
  }

  /** Profile `k` is the first that matches the port. */
  ghost predicate Governs(profiles: seq<DeviceProfile>, port: PortInfo, k: nat) {
    && k < |profiles| && Matches(profiles[k], port)
    && forall j :: 0 <= j < k ==> !Matches(profiles[j], port)
  }

  /** The port that the host lists first under the canonical path of the port of a device name. */
  lemma PortIsFound(h: Host, profiles: seq<DeviceProfile>, name: string) returns (port: PortInfo)
    requires ByName(h, profiles, name).Ok?
    ensures var path := h.ports.value[ByName(h, profiles, name).value.0].path;
      && h.ports.Some? && PortAt(h, path).Some? && port == h.ports.value[PortAt(h, path).value]
      && ByPath(h, profiles, path) == Ok(First(profiles, (p: DeviceProfile) => Matches(p, port)))
  {
    var (i, n) := ByName(h, profiles, name).value;
    assert h.canonical(h.ports.value[i].path) == h.canonical(h.ports.value[i].path);
    port := h.ports.value[PortAt(h, h.ports.value[i].path).value];
  }

  /**
   A device's name and the path of its port get the same profile iff the named profile is the first that
   matches the port found at that path: of two profiles that match one port, only one can be reached by
   its path.
   */
  lemma NameAndPathAgree(h: Host, profiles: seq<DeviceProfile>, name: string)
    requires ByName(h, profiles, name).Ok?
    ensures var (i, n) := ByName(h, profiles, name).value;
      var path := h.ports.value[i].path;
      && PortAt(h, path).Some?
      && (ByPath(h, profiles, path) == Ok(Some(n)) <==> Governs(profiles, h.ports.value[PortAt(h, path).value], n))
  {
    var port := PortIsFound(h, profiles, name);
  }

  /** What governs the port implies exactly what profile `n` implies; without one, the defaults do. */
  ghost predicate SameDefaults(profiles: seq<DeviceProfile>, port: PortInfo, n: nat)
    requires n < |profiles|
  {
    || (exists k: nat :: Governs(profiles, port, k) && Implied(profiles[k]) == Implied(profiles[n]))
    || ((forall k: nat :: !Governs(profiles, port, k)) && Implied(profiles[n]) == UNPROFILED)
  }

  function OpenPort(path: string, r: OpenRequest): OpenRequest {
    r.(port := Some(path), device := None)
  }

  function OpenDevice(name: string, r: OpenRequest): OpenRequest {
    r.(port := None, device := Some(name))
  }

  /**
   When a path avoids what a name implies: both requests open the same path. They get the same write
   policy, console settings and command rules iff the profile that governs the port found there has them
   too; the path gets a looser write policy iff the named profile is privileged and that one is not.
   */
  lemma PathIsLooserIff(h: Host, profiles: seq<DeviceProfile>, name: string, r: OpenRequest)
    requires ByName(h, profiles, name).Ok?
    ensures var (i, n) := ByName(h, profiles, name).value;
      var path := h.ports.value[i].path;
      var named, direct := Resolve(h, profiles, OpenDevice(name, r)), Resolve(h, profiles, OpenPort(path, r));
      && PortAt(h, path).Some? && named.Ok? && direct.Ok? && named.value.path == direct.value.path == path
      && (Rank(direct.value.profile.policy) < Rank(named.value.profile.policy) <==>
            && profiles[n].privileged
            && forall k: nat :: Governs(profiles, h.ports.value[PortAt(h, path).value], k) ==> !profiles[k].privileged)
      && (named == direct <==> SameDefaults(profiles, h.ports.value[PortAt(h, path).value], n))
  {
    var port := PortIsFound(h, profiles, name);
    var path := h.ports.value[ByName(h, profiles, name).value.0].path;
    var m := ByPath(h, profiles, path).value;
    if m.Some? {
      assert Governs(profiles, port, m.value);
    }
    forall k: nat | Governs(profiles, port, k)
      ensures m == Some(k)
    {
      assert m.Some? && Matches(profiles[m.value], port);
    }
  }

  lemma FirstIs<T>(s: seq<T>, p: T -> bool, k: nat)
    requires k < |s| && p(s[k]) && forall j :: 0 <= j < k ==> !p(s[j])
    ensures First(s, p) == Some(k)
  {
    assert First(s, p).Some?;
  }

  /**
   What a path can drop: a deny rule, or the list of allowed commands, of the named profile is missing
   from the session exactly if the profile that governs the port found at the path does not have it.
   */
  lemma PathDropsRuleIff(h: Host, profiles: seq<DeviceProfile>, name: string, r: OpenRequest, rule: string)
    requires ByName(h, profiles, name).Ok?
    ensures var (i, n) := ByName(h, profiles, name).value;
      var path := h.ports.value[i].path;
      var direct := Resolve(h, profiles, OpenPort(path, r));
      && PortAt(h, path).Some? && direct.Ok?
      && (rule !in direct.value.profile.denyPatterns <==>
            forall k: nat :: Governs(profiles, h.ports.value[PortAt(h, path).value], k) ==>
              rule !in profiles[k].denyPatterns)
      && (direct.value.profile.allowPatterns == [] <==>
            forall k: nat :: Governs(profiles, h.ports.value[PortAt(h, path).value], k) ==>
              profiles[k].allowPatterns == [])
      && (direct.value.profile.console.lineEnding == NoEnding <==>
            forall k: nat :: Governs(profiles, h.ports.value[PortAt(h, path).value], k) ==>
              profiles[k].console.lineEnding == NoEnding)
  {
    var port := PortIsFound(h, profiles, name);
    var path := h.ports.value[ByName(h, profiles, name).value.0].path;
    var m := ByPath(h, profiles, path).value;
    if m.Some? {
      assert Governs(profiles, port, m.value);
    }
    forall k: nat | Governs(profiles, port, k)
      ensures m == Some(k)
    {
      assert m.Some? && Matches(profiles[m.value], port);
    }
  }

  /** Two profiles for one serial number: the name of the privileged one asks first, the path does not. */
  lemma OverlapAvoidsConfirm()
    ensures var console := Settings(NoEnding, UnknownEcho, NoPrompt);
      var first := DeviceProfile("first", "ABC123", None, None, false, console, [], []);
      var second := DeviceProfile("second", "ABC123", None, None, true, console, [], []);
      var h := Host(Some([PortInfo("/dev/ttyUSB0", Some("ABC123"), Some(1), Some(2))]), _ => true, path => path);
      var r := OpenRequest(None, None, None, None, None);
      && Resolve(h, [first, second], OpenDevice("second", r)) == Ok(Resolved("/dev/ttyUSB0", Implied(second)))
      && Resolve(h, [first, second], OpenPort("/dev/ttyUSB0", r)) == Ok(Resolved("/dev/ttyUSB0", Implied(first)))
      && Implied(second).policy == Confirm && Implied(first).policy == Allow
  {
    var console := Settings(NoEnding, UnknownEcho, NoPrompt);
    var first := DeviceProfile("first", "ABC123", None, None, false, console, [], []);
    var second := DeviceProfile("second", "ABC123", None, None, true, console, [], []);
    var port := PortInfo("/dev/ttyUSB0", Some("ABC123"), Some(1), Some(2));
    var h := Host(Some([port]), _ => true, path => path);
    assert first.name[0] == 'f';
    FirstIs([first, second], (p: DeviceProfile) => p.name == "second", 1);
    assert h.allowed(port.path) && Matches(second, port) && Matches(first, port);
    FirstIs([port], (q: PortInfo) => h.allowed(q.path) && Matches([first, second][1], q), 0);
    FirstIs([port], (q: PortInfo) => h.canonical(q.path) == h.canonical("/dev/ttyUSB0"), 0);
    FirstIs([first, second], (p: DeviceProfile) => Matches(p, port), 0);
  }

  /** The USB identity on the port is the profile's: the serial number, and the vendor and product if given. */
  predicate Identified(p: DeviceProfile, serial: Option<string>, vid: Option<nat>, pid: Option<nat>) {
    serial == Some(p.serial) && (p.vid == None || p.vid == vid) && (p.pid == None || p.pid == pid)
  }

  /** Element `i` is the first with a property. */
  ghost predicate FirstAt<T>(s: seq<T>, p: T -> bool, i: int) {
    0 <= i < |s| && p(s[i]) && forall j :: 0 <= j < i ==> !p(s[j])
  }

  ghost function FitsName(h: Host, p: DeviceProfile): PortInfo -> bool {
    (q: PortInfo) => h.allowed(q.path) && Identified(p, q.serial, q.vid, q.pid)
  }

  ghost function FitsPath(h: Host, path: string): PortInfo -> bool {
    (q: PortInfo) => h.canonical(q.path) == h.canonical(path)
  }

  ghost function FitsPort(port: PortInfo): DeviceProfile -> bool {
    (p: DeviceProfile) => Identified(p, port.serial, port.vid, port.pid)
  }

  /**
   What opening a device by its name gives: a path and a profile exactly if the first profile of that name
   fits an allowed port that is plugged in, and then the first such port; asking for both a port and a
   device, or for neither, is refused.
   */
  lemma OpensByName(h: Host, profiles: seq<DeviceProfile>, name: string, r: OpenRequest, n: nat)
    requires n < |profiles| && profiles[n].name == name && forall k :: 0 <= k < n ==> profiles[k].name != name
    ensures var p, result := profiles[n], Resolve(h, profiles, OpenDevice(name, r));
      && (h.ports.None? ==> result == Err(Io))
      && (h.ports.Some? ==>
            && (result == Err(DeviceNotFound) <==>
                  forall q :: q in h.ports.value && h.allowed(q.path) ==> !Identified(p, q.serial, q.vid, q.pid))
            && (forall i :: FirstAt(h.ports.value, FitsName(h, p), i) ==>
                  result == Ok(Resolved(h.ports.value[i].path, Profile(if p.privileged then Confirm else Allow,
                    p.console, p.denyPatterns, p.allowPatterns)))))
  {
    FirstIs(profiles, (p: DeviceProfile) => p.name == name, n);
    if h.ports.Some? {
      var fits := (q: PortInfo) => h.allowed(q.path) && Matches(profiles[n], q);
      forall q: PortInfo
        ensures fits(q) == FitsName(h, profiles[n])(q)
      {
        assert Matches(profiles[n], q) == Identified(profiles[n], q.serial, q.vid, q.pid);
      }
      forall i | FirstAt(h.ports.value, FitsName(h, profiles[n]), i)
        ensures First(h.ports.value, fits) == Some(i)
      {
        FirstIs(h.ports.value, fits, i);
      }
      assert First(h.ports.value, fits).None? ==> forall q :: q in h.ports.value ==> !fits(q);
      assert First(h.ports.value, fits).Some? ==> fits(h.ports.value[First(h.ports.value, fits).value]);
    }
  }

  /** A request names a port or a device. */
  lemma OneTargetOnly(h: Host, profiles: seq<DeviceProfile>, r: OpenRequest)
    ensures (r.port.Some? && r.device.Some?) || (r.port.None? && r.device.None?) ==>
      Resolve(h, profiles, r) == Err(InvalidParam("port/device"))
    ensures r.port.None? && r.device.Some? && (forall p :: p in profiles ==> p.name != r.device.value) ==>
      Resolve(h, profiles, r) == Err(DeviceNotFound)
  {
    if r.device.Some? {
      var named := First(profiles, (p: DeviceProfile) => p.name == r.device.value);
      assert named.Some? ==> profiles[named.value] in profiles;
    }
  }

  /**
   What opening a path gives: with no profiles configured the defaults, without asking the host; without an
   enumeration nothing at all; else the first profile that fits the first port of the same canonical path,
   and the defaults if there is no such port or no such profile.
   */
  lemma OpensByPath(h: Host, profiles: seq<DeviceProfile>, path: string, r: OpenRequest)
    ensures var result := Resolve(h, profiles, OpenPort(path, r));
      && (profiles == [] ==> result == Ok(Resolved(path, UNPROFILED)))
      && (profiles != [] && h.ports.None? ==> result == Err(Io))
      && (profiles != [] && h.ports.Some? ==>
            && result.Ok? && result.value.path == path
            && ((forall q :: q in h.ports.value ==> h.canonical(q.path) != h.canonical(path)) ==>
                  result.value.profile == UNPROFILED)
            && (forall i :: FirstAt(h.ports.value, FitsPath(h, path), i) ==>
                  ChosenFor(profiles, h.ports.value[i], result.value.profile)))
    ensures UNPROFILED.policy == Allow && UNPROFILED.denyPatterns == [] && UNPROFILED.allowPatterns == []
  {
    if profiles != [] && h.ports.Some? {
      var there := (q: PortInfo) => h.canonical(q.path) == h.canonical(path);
      forall i | FirstAt(h.ports.value, FitsPath(h, path), i)
        ensures ChosenFor(profiles, h.ports.value[i], Resolve(h, profiles, OpenPort(path, r)).value.profile)
      {
        FirstIs(h.ports.value, there, i);
        FirstFits(profiles, h.ports.value[i]);
      }
      assert PortAt(h, path).Some? ==> h.ports.value[PortAt(h, path).value] in h.ports.value;
    }
  }

  /** The settings of the first profile that fits the port, or the defaults if none does. */
  ghost predicate ChosenFor(profiles: seq<DeviceProfile>, port: PortInfo, chosen: Profile) {
    if forall p :: p in profiles ==> !Identified(p, port.serial, port.vid, port.pid) then chosen == UNPROFILED
    else exists k :: FirstAt(profiles, FitsPort(port), k) && chosen == Implied(profiles[k])
  }

  lemma FirstFits(profiles: seq<DeviceProfile>, port: PortInfo)
    ensures var first := First(profiles, (p: DeviceProfile) => Matches(p, port));
      ChosenFor(profiles, port, if first.Some? then Implied(profiles[first.value]) else UNPROFILED)
  {
    var first := First(profiles, (p: DeviceProfile) => Matches(p, port));
    if first.Some? {
      assert profiles[first.value] in profiles;
      assert FirstAt(profiles, FitsPort(port), first.value);
    } else {
      forall p | p in profiles
        ensures !Identified(p, port.serial, port.vid, port.pid)
      {
        var k :| 0 <= k < |profiles| && profiles[k] == p;
      }
    }
  }
}
