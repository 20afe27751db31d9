/**
  Network (src/Network.php): the speakers of the network, built by joining the device list
  with the topology reported by one speaker; the coordinators among them as controllers;
  lookups by room, by IP and by group; and the memoised playlists and alarms.

  What the collaborators deliver is an input here (`Env`): the device list getDevices
  returns, the ZonePlayer attribute maps read from the topology XML, `parse_url(...)["host"]`
  as `hostOf`, and the lists the SOAP calls return.
 */
module Network {
  import opened Wrappers
  import opened Seqs
  import opened Lookup

  /** A discovered device: its address and whether it is a speaker. */
  datatype DeviceInfo = DeviceInfo(ip: string, isSpeaker: bool)

  /** The attributes of one ZonePlayer tag of the topology. */
  datatype Attributes = Attributes(location: string, room: string, group: string, coordinator: bool)

  datatype Speaker = Speaker(ip: string, topology: Attributes) {
    function Room(): string { topology.room }
    function Group(): string { topology.group }
    predicate IsCoordinator() { topology.coordinator }
  }

  /** The handle through which a group's coordinator is driven. */
  datatype Controller = Controller(speaker: Speaker) {
    function Ip(): string { speaker.ip }
    function Group(): string { speaker.Group() }
  }

  datatype Playlist = Playlist(id: string, name: string)

  datatype Alarm = Alarm(id: int)

  /** What the network answers: the devices, the topology's players and the URL parser. */
  datatype Env = Env(devices: seq<DeviceInfo>, players: seq<Attributes>,
                     hostOf: string -> Option<string>)

  // The conditions of the lookup loops, as function values.

  function HasIp(ip: string): Speaker -> bool { (s: Speaker) => s.ip == ip }
  function InRoomNamed(room: string): Speaker -> bool { (s: Speaker) => s.Room() == room }
  predicate IsCoordinatorSpeaker(s: Speaker) { s.IsCoordinator() }
  function OfGroup(group: string): Controller -> bool { (c: Controller) => c.Group() == group }
  function HasId(id: int): Alarm -> bool { (a: Alarm) => a.id == id }

  // ================================================================ topology and join

  /** `parse_url($location)["host"]` as an array key: a missing host (null) becomes "". */
  function HostKey(hostOf: string -> Option<string>, location: string): string {
    hostOf(location).GetOr("")
  }

  /** The topology map, keyed by host; a later player with the same host overwrites. */
  function TopologyMap(players: seq<Attributes>, hostOf: string -> Option<string>): map<string, Attributes>
    decreases |players|
  {
    if players == [] then map[]
    else
      var p := players[|players| - 1];
      TopologyMap(players[..|players| - 1], hostOf)[HostKey(hostOf, p.location) := p]
  }

  /** A host is a key exactly when some player's location has it. */
  lemma {:induction false} TopologyMapKeys(players: seq<Attributes>, hostOf: string -> Option<string>, key: string)
    ensures key in TopologyMap(players, hostOf) <==>
              exists j :: 0 <= j < |players| && HostKey(hostOf, players[j].location) == key
    decreases |players|
  {
    if players != [] {
      var n := |players| - 1;
      var init := players[..n];
      TopologyMapKeys(init, hostOf, key);
      if exists j :: 0 <= j < n && HostKey(hostOf, init[j].location) == key {
        var j :| 0 <= j < n && HostKey(hostOf, init[j].location) == key;
        assert players[j] == init[j];
      }
      forall j | 0 <= j < n && HostKey(hostOf, players[j].location) == key
        ensures exists j' :: 0 <= j' < n && HostKey(hostOf, init[j'].location) == key
      {
        assert init[j] == players[j];
      }
    }
  }

  /** The entry of a host is the last player whose location has it. */
  lemma {:induction false} TopologyMapLast(players: seq<Attributes>, hostOf: string -> Option<string>, key: string)
    requires key in TopologyMap(players, hostOf)
    ensures exists j :: 0 <= j < |players| && HostKey(hostOf, players[j].location) == key
                        && TopologyMap(players, hostOf)[key] == players[j]
                        && forall j' :: j < j' < |players| ==> HostKey(hostOf, players[j'].location) != key
    decreases |players|
  {
    var n := |players| - 1;
    var init := players[..n];
    if HostKey(hostOf, players[n].location) != key {
      TopologyMapLast(init, hostOf, key);
      var j :| 0 <= j < n && HostKey(hostOf, init[j].location) == key
               && TopologyMap(init, hostOf)[key] == init[j]
               && forall j' :: j < j' < n ==> HostKey(hostOf, init[j'].location) != key;
      assert players[j] == init[j];
      forall j' | j < j' < |players| ensures HostKey(hostOf, players[j'].location) != key {
        if j' < n {
          assert players[j'] == init[j'];
        }
      }
    }
  }

  function Ips(ss: seq<Speaker>): (r: seq<string>)
    ensures |r| == |ss| && forall i :: 0 <= i < |ss| ==> r[i] == ss[i].ip
  {
    seq(|ss|, i requires 0 <= i < |ss| => ss[i].ip)
  }

  /** `$speakers[$ip] = $speaker`: an entry with the same key is replaced where it stands,
      otherwise the speaker is appended. */
  function PutSpeaker(ss: seq<Speaker>, s: Speaker): seq<Speaker> {
    match FirstWhere(ss, HasIp(s.ip))
    case Some(i) => ss[i := s]
    case None => ss + [s]
  }

  /** The keys after the assignment are the old keys with the new one appended if it was not
      there; the new speaker is present, and every speaker with another key survives. */
  lemma PutSpeakerSpec(ss: seq<Speaker>, s: Speaker)
    ensures Ips(PutSpeaker(ss, s)) == AppendNew(Ips(ss), s.ip)
    ensures s in PutSpeaker(ss, s)
    ensures forall t :: t in PutSpeaker(ss, s) ==> t == s || t in ss
    ensures forall t :: t in ss && t.ip != s.ip ==> t in PutSpeaker(ss, s)
  {
    var r := PutSpeaker(ss, s);
    match FirstWhere(ss, HasIp(s.ip))
    case Some(i) =>
      assert s.ip in Ips(ss) by { assert Ips(ss)[i] == s.ip; }
      assert Ips(r) == Ips(ss);
    case None =>
      assert s.ip !in Ips(ss);
      assert Ips(r) == Ips(ss) + [s.ip];
  }

  /** The join loop's state: the speakers built so far and whether every speaker device so
      far was found in the topology. */
  datatype JoinState = JoinState(speakers: seq<Speaker>, ok: bool)

  function Join(devices: seq<DeviceInfo>, topology: map<string, Attributes>): JoinState
    decreases |devices|
  {
    if devices == [] then JoinState([], true)
    else
      var st := Join(devices[..|devices| - 1], topology);
      var d := devices[|devices| - 1];
      if !st.ok || !d.isSpeaker then st
      else if d.ip !in topology then JoinState(st.speakers, false)
      else JoinState(PutSpeaker(st.speakers, Speaker(d.ip, topology[d.ip])), true)
  }

  /** The addresses of the speaker devices, in device order. */
  function SpeakerIps(devices: seq<DeviceInfo>): seq<string>
    decreases |devices|
  {
    if devices == [] then []
    else
      var d := devices[|devices| - 1];
      SpeakerIps(devices[..|devices| - 1]) + (if d.isSpeaker then [d.ip] else [])
  }

  /** The join succeeds exactly when every speaker device's address is in the topology;
      non-speakers are never looked up. */
  lemma {:induction false} JoinOk(devices: seq<DeviceInfo>, topology: map<string, Attributes>)
    ensures Join(devices, topology).ok <==>
              forall j :: 0 <= j < |devices| && devices[j].isSpeaker ==> devices[j].ip in topology
    decreases |devices|
  {
    if devices != [] {
      var n := |devices| - 1;
      JoinOk(devices[..n], topology);
      forall j | 0 <= j < n ensures devices[j] == devices[..n][j] { }
    }
  }

  /** The speakers are keyed by distinct addresses; after a successful join they are the
      speaker addresses in order of first appearance. */
  lemma {:induction false} JoinKeys(devices: seq<DeviceInfo>, topology: map<string, Attributes>)
    ensures Join(devices, topology).ok ==>
              Ips(Join(devices, topology).speakers) == AppendAllNew([], SpeakerIps(devices))
    ensures Distinct(Ips(Join(devices, topology).speakers))
    decreases |devices|
  {
    if devices != [] {
      var n := |devices| - 1;
      var init, d := devices[..n], devices[n];
      JoinKeys(init, topology);
      var st := Join(init, topology);
      if st.ok && d.isSpeaker && d.ip in topology {
        var s := Speaker(d.ip, topology[d.ip]);
        PutSpeakerSpec(st.speakers, s);
        AppendAllNewSpec([], SpeakerIps(init));
        assert SpeakerIps(devices) == SpeakerIps(init) + [d.ip];
        assert AppendAllNew([], SpeakerIps(devices)) == AppendNew(AppendAllNew([], SpeakerIps(init)), d.ip) by {
          assert (SpeakerIps(init) + [d.ip])[..|SpeakerIps(init)|] == SpeakerIps(init);
        }
      } else if st.ok && !d.isSpeaker {
        assert SpeakerIps(devices) == SpeakerIps(init) + [];
        assert SpeakerIps(init) + [] == SpeakerIps(init);
      }
    }
  }

  /** Every joined speaker carries the topology entry of its own address. */
  lemma {:induction false} JoinEntries(devices: seq<DeviceInfo>, topology: map<string, Attributes>)
    ensures forall s :: s in Join(devices, topology).speakers ==>
              s.ip in topology && s.topology == topology[s.ip]
    decreases |devices|
  {
    if devices != [] {
      var n := |devices| - 1;
      var init, d := devices[..n], devices[n];
      JoinEntries(init, topology);
      var st := Join(init, topology);
      if st.ok && d.isSpeaker && d.ip in topology {
        PutSpeakerSpec(st.speakers, Speaker(d.ip, topology[d.ip]));
      }
    }
  }

  /** Once a speaker has been missed, later devices change nothing. */
  lemma {:induction false} JoinStops(devices: seq<DeviceInfo>, i: nat, topology: map<string, Attributes>)
    requires i <= |devices| && !Join(devices[..i], topology).ok
    ensures Join(devices, topology) == Join(devices[..i], topology)
    decreases |devices|
  {
    if i < |devices| {
      var init := devices[..|devices| - 1];
      assert init[..i] == devices[..i];
      JoinStops(init, i, topology);
    } else {
      assert devices[..i] == devices;
    }
  }

  /** What a call of getSpeakers with nothing memoised computes. */
  function ResolveSpeakers(env: Env): Result<seq<Speaker>> {
    if |env.devices| < 1 then Failure(NoDevicesFound)
    else
      var st := Join(env.devices, TopologyMap(env.players, env.hostOf));
      if st.ok then Success(st.speakers) else Failure(TopologyLookupFailed)
  }

  /** A call's answer together with what is memoised afterwards. */
  datatype Step<T> = Step(result: Result<T>, memo: Option<T>)

  /** getSpeakers on a memo: a memoised list is answered as is; otherwise the list is
      resolved and memoised only when resolution succeeds. */
  function SpeakersStep(memo: Option<seq<Speaker>>, env: Env): Step<seq<Speaker>> {
    if memo.Some? then Step(Success(memo.value), memo)
    else match ResolveSpeakers(env)
      case Success(ss) => Step(Success(ss), Some(ss))
      case Failure(e) => Step(Failure(e), None)
  }

  /** getSpeakers as written: `$this->speakers = []` precedes the loop that may throw, so a
      failed resolution leaves the speakers built so far memoised. */
  function SpeakersStepAsWritten(memo: Option<seq<Speaker>>, env: Env): Step<seq<Speaker>> {
    if memo.Some? then Step(Success(memo.value), memo)
    else if |env.devices| < 1 then Step(Failure(NoDevicesFound), None)
    else
      var st := Join(env.devices, TopologyMap(env.players, env.hostOf));
      Step(if st.ok then Success(st.speakers) else Failure(TopologyLookupFailed), Some(st.speakers))
  }

  /** A memo holds a complete resolution of the network. */
  predicate Complete(memo: Option<seq<Speaker>>, env: Env) {
    memo.Some? ==> ResolveSpeakers(env) == Success(memo.value)
  }

  /** getSpeakers keeps the memo complete, so whatever it answers is a complete resolution:
      every speaker device is in the topology. */
  lemma SpeakersStepComplete(memo: Option<seq<Speaker>>, env: Env)
    requires Complete(memo, env)
    ensures Complete(SpeakersStep(memo, env).memo, env)
    ensures SpeakersStep(memo, env).result == ResolveSpeakers(env)
    ensures SpeakersStep(memo, env).result.Success? ==>
              |env.devices| >= 1
              && forall j :: 0 <= j < |env.devices| && env.devices[j].isSpeaker ==>
                   env.devices[j].ip in TopologyMap(env.players, env.hostOf)
  {
    JoinOk(env.devices, TopologyMap(env.players, env.hostOf));
  }

  /** The two agree whenever resolution succeeds or nothing is memoised yet. */
  lemma SpeakersStepsAgree(memo: Option<seq<Speaker>>, env: Env)
    requires memo.Some? || ResolveSpeakers(env).Success?
    ensures SpeakersStepAsWritten(memo, env) == SpeakersStep(memo, env)
  {
  }

  /** Two speakers, "a" in the topology and "b" missing from it. The first call of getSpeakers
      as written fails, yet the second answers with "a" alone, as if "b" did not exist; the
      corrected call fails both times. */
  lemma PartialMemoAsWritten()
    ensures var env := PartialEnv();
            var first := SpeakersStepAsWritten(None, env);
            && first.result == Failure(TopologyLookupFailed)
            && SpeakersStepAsWritten(first.memo, env).result == Success([Speaker("a", KitchenA())])
            && SpeakersStep(SpeakersStep(None, env).memo, env).result == Failure(TopologyLookupFailed)
  {
    var env := PartialEnv();
    var topo := TopologyMap(env.players, env.hostOf);
    assert env.players[..0] == [];
    assert topo == map["a" := KitchenA()];
    var ds := env.devices;
    assert ds[..1][..0] == [];
    assert Join(ds[..1], topo) == JoinState([Speaker("a", KitchenA())], true) by {
      assert FirstWhere([], HasIp("a")) == None;
    }
    assert ds[..2][..1] == ds[..1];
    assert ds[..2] == ds;
  }

  function KitchenA(): Attributes {
    Attributes("http://a:1400/xml", "Kitchen", "G1", true)
  }

  function PartialEnv(): Env {
    Env([DeviceInfo("a", true), DeviceInfo("b", true)], [KitchenA()],
        loc => if loc == "http://a:1400/xml" then Some("a") else None)
  }

  // ================================================================ controllers and lookups

  /** The coordinators, in speaker order, as controllers (keyed by the same addresses). */
  function Controllers(ss: seq<Speaker>): (cs: seq<Controller>)
    ensures forall c :: c in cs <==> c.speaker in ss && c.speaker.IsCoordinator()
    ensures cs == [] <==> forall s :: s in ss ==> !s.IsCoordinator()
    ensures |cs| <= |ss|
    decreases |ss|
  {
    if ss == [] then []
    else
      var s := ss[|ss| - 1];
      var init := ss[..|ss| - 1];
      assert forall t :: t in ss <==> t in init || t == s by { assert ss == init + [s]; }
      Controllers(init) + (if s.IsCoordinator() then [Controller(s)] else [])
  }

  /** getController: the first controller, if any. */
  function FirstController(ss: seq<Speaker>): Option<Controller> {
    if Controllers(ss) == [] then None else Some(Controllers(ss)[0])
  }

  /** getController answers the controller of the first coordinator in speaker order, and
      null exactly when no speaker is a coordinator. */
  lemma {:induction false} FirstControllerSpec(ss: seq<Speaker>)
    ensures FirstWhere(ss, IsCoordinatorSpeaker).None? ==> FirstController(ss) == None
    ensures FirstWhere(ss, IsCoordinatorSpeaker).Some? ==>
              FirstController(ss) == Some(Controller(ss[FirstWhere(ss, IsCoordinatorSpeaker).value]))
    decreases |ss|
  {
    if ss != [] {
      var n := |ss| - 1;
      var init := ss[..n];
      FirstControllerSpec(init);
      FirstWhereSnoc(ss, IsCoordinatorSpeaker);
      ControllersSnoc(ss);
      if FirstWhere(init, IsCoordinatorSpeaker).None? {
        NoCoordinators(init);
      }
    }
  }

  lemma ControllersSnoc(ss: seq<Speaker>)
    requires ss != []
    ensures Controllers(ss) == Controllers(ss[..|ss| - 1])
                               + (if ss[|ss| - 1].IsCoordinator() then [Controller(ss[|ss| - 1])] else [])
  {
  }

  lemma NoCoordinators(ss: seq<Speaker>)
    requires FirstWhere(ss, IsCoordinatorSpeaker).None?
    ensures Controllers(ss) == []
  {
    forall t | t in ss ensures !t.IsCoordinator() {
      var j :| 0 <= j < |ss| && ss[j] == t;
      assert !IsCoordinatorSpeaker(ss[j]);
    }
  }

  /** getSpeakerByRoom: the first speaker whose room name is exactly `room`. */
  function FirstInRoom(ss: seq<Speaker>, room: string): Option<Speaker> {
    At(ss, FirstWhere(ss, InRoomNamed(room)))
  }

  /** getSpeakersByRoom: every speaker whose room name is exactly `room`, in order. */
  function InRoom(ss: seq<Speaker>, room: string): (r: seq<Speaker>)
    ensures forall s :: s in r <==> s in ss && s.Room() == room
    ensures r == [] <==> forall s :: s in ss ==> s.Room() != room
    decreases |ss|
  {
    if ss == [] then []
    else
      var s := ss[|ss| - 1];
      var init := ss[..|ss| - 1];
      assert forall t :: t in ss <==> t in init || t == s by { assert ss == init + [s]; }
      InRoom(init, room) + (if s.Room() == room then [s] else [])
  }

  /** The single-speaker lookup is the first element of the all-speakers lookup. */
  lemma {:induction false} RoomLookupsAgree(ss: seq<Speaker>, room: string)
    ensures FirstInRoom(ss, room) == if InRoom(ss, room) == [] then None else Some(InRoom(ss, room)[0])
    decreases |ss|
  {
    if ss != [] {
      var n := |ss| - 1;
      var init := ss[..n];
      RoomLookupsAgree(init, room);
      var p := InRoomNamed(room);
      FirstWhereSnoc(ss, p);
      assert InRoom(ss, room) == InRoom(init, room) + (if ss[n].Room() == room then [ss[n]] else []);
      match FirstWhere(init, p)
      case Some(k) =>
        assert ss[k] == init[k];
        assert InRoom(init, room) != [];
      case None =>
        assert InRoom(init, room) == [];
    }
  }

  /** The first controller whose group is `group`. */
  function FirstOfGroup(cs: seq<Controller>, group: string): (r: Option<Controller>)
    ensures r.Some? ==> r.value in cs && r.value.Group() == group
    ensures r.None? <==> forall c :: c in cs ==> c.Group() != group
  {
    var i := FirstWhere(cs, OfGroup(group));
    At(cs, i)
  }

  /** getControllerByRoom: the controller of the group of the first speaker in the room. */
  function ControllerByRoom(ss: seq<Speaker>, room: string): Option<Controller> {
    match FirstInRoom(ss, room)
    case None => None
    case Some(s) => FirstOfGroup(Controllers(ss), s.Group())
  }

  /** No speaker in the room, no controller; otherwise a coordinator of that speaker's group,
      found whenever the group has one. */
  lemma ControllerByRoomSpec(ss: seq<Speaker>, room: string)
    ensures FirstInRoom(ss, room).None? ==> ControllerByRoom(ss, room).None?
    ensures ControllerByRoom(ss, room).Some? ==>
              var c := ControllerByRoom(ss, room).value;
              && c.speaker in ss && c.speaker.IsCoordinator()
              && FirstInRoom(ss, room).Some? && c.Group() == FirstInRoom(ss, room).value.Group()
    ensures FirstInRoom(ss, room).Some? ==>
              (ControllerByRoom(ss, room).Some? <==>
                 exists t :: t in ss && t.IsCoordinator() && t.Group() == FirstInRoom(ss, room).value.Group())
  {
    match FirstInRoom(ss, room)
    case None =>
    case Some(s) =>
      if exists t :: t in ss && t.IsCoordinator() && t.Group() == s.Group() {
        var t :| t in ss && t.IsCoordinator() && t.Group() == s.Group();
        assert Controller(t) in Controllers(ss);
      }
  }

  /** `$speakers[$ip]`, when the key exists. */
  function SpeakerWithIp(ss: seq<Speaker>, ip: string): Option<Speaker> {
    At(ss, FirstWhere(ss, HasIp(ip)))
  }

  /** getControllerByIp: an error for an unknown address; otherwise the controller of that
      speaker's group, if the group has one. */
  function ControllerByIp(ss: seq<Speaker>, ip: string): Result<Option<Controller>> {
    match SpeakerWithIp(ss, ip)
    case None => Failure(NoSpeakerForIp(ip))
    case Some(s) => Success(FirstOfGroup(Controllers(ss), s.Group()))
  }

  /** An unknown address is an error; otherwise the result is a coordinator of that speaker's
      group, found whenever the group has one. */
  lemma ControllerByIpSpec(ss: seq<Speaker>, ip: string)
    ensures ControllerByIp(ss, ip).Failure? <==> ip !in Ips(ss)
    ensures ControllerByIp(ss, ip).Failure? ==> ControllerByIp(ss, ip).error == NoSpeakerForIp(ip)
    ensures ControllerByIp(ss, ip).Success? && ControllerByIp(ss, ip).value.Some? ==>
              var c := ControllerByIp(ss, ip).value.value;
              c.speaker in ss && c.speaker.IsCoordinator()
              && exists s :: s in ss && s.ip == ip && c.Group() == s.Group()
    ensures SpeakerWithIp(ss, ip).Some? ==>
              ControllerByIp(ss, ip).Success? &&
              (ControllerByIp(ss, ip).value.Some? <==>
                 exists t :: t in ss && t.IsCoordinator() && t.Group() == SpeakerWithIp(ss, ip).value.Group())
  {
    var i := FirstWhere(ss, HasIp(ip));
    if i.None? {
      assert ip !in Ips(ss) by {
        forall k | 0 <= k < |ss| ensures Ips(ss)[k] != ip { }
      }
    } else {
      assert Ips(ss)[i.value] == ip;
      var s := ss[i.value];
      if exists t :: t in ss && t.IsCoordinator() && t.Group() == s.Group() {
        var t :| t in ss && t.IsCoordinator() && t.Group() == s.Group();
        assert Controller(t) in Controllers(ss);
      }
    }
  }

  /** Two speakers of group G1, only the first a coordinator: there is exactly one controller,
      of group G1, and the other speaker's room resolves to it. */
  lemma OneCoordinatorGroup(a: Speaker, b: Speaker)
    requires a.Group() == "G1" && b.Group() == "G1" && a.IsCoordinator() && !b.IsCoordinator()
    ensures Controllers([a, b]) == [Controller(a)] && Controllers([a, b])[0].Group() == "G1"
    ensures ControllerByRoom([a, b], b.Room()) == Some(Controller(a))
  {
    assert [a, b][..1] == [a];
    assert [a][..0] == [];
    var p := InRoomNamed(b.Room());
    assert [a, b][1..] == [b];
    assert p(b);
    assert FirstWhere([b], p) == Some(0);
    var f := FirstWhere([a, b], p);
    assert f.Some?;
  }

  // ================================================================ playlists and alarms

  function PlaylistName(p: Playlist): string { p.name }

  /** The list after createPlaylist appends `p`, as written: appending to an unset memo makes
      `[p]` the whole memoised list. */
  function AppendPlaylistAsWritten(memo: Option<seq<Playlist>>, p: Playlist): Option<seq<Playlist>> {
    Some(memo.GetOr([]) + [p])
  }

  /** Corrected: an unset memo stays unset, so the next getPlaylists fetches every playlist,
      the new one included. */
  function AppendPlaylist(memo: Option<seq<Playlist>>, p: Playlist): Option<seq<Playlist>> {
    match memo
    case None => None
    case Some(ps) => Some(ps + [p])
  }

  /** Appending never hides a playlist that was memoised, and the new playlist is visible
      whenever a list is memoised. */
  lemma AppendPlaylistKeeps(memo: Option<seq<Playlist>>, p: Playlist)
    ensures AppendPlaylist(memo, p).Some? <==> memo.Some?
    ensures memo.Some? ==>
              (forall q :: q in AppendPlaylist(memo, p).value <==> q in memo.value || q == p)
              && AppendPlaylist(memo, p).value[..|memo.value|] == memo.value
  {
    if memo.Some? {
      assert (memo.value + [p])[..|memo.value|] == memo.value;
    }
  }

  /** With nothing memoised and "Mix" on the server, creating "New" as written makes the
      by-name lookup miss "Mix" for the rest of the object's life (clearTopology keeps the
      playlist memo). Corrected, the memo stays unset, and the list fetched next, which holds
      "Mix", finds it. */
  lemma HiddenPlaylistAsWritten(mix: Playlist, created: Playlist, server: seq<Playlist>)
    requires mix.name == "Mix" && created.name == "New" && mix in server
    ensures NameMatch(AppendPlaylistAsWritten(None, created).value, PlaylistName, "Mix") == None
    ensures AppendPlaylist(None, created) == None
    ensures NameMatch(server, PlaylistName, "Mix").Some?
  {
    assert NameMatch(server, PlaylistName, "Mix").Some? by {
      var k :| 0 <= k < |server| && server[k] == mix;
      assert PlaylistName(server[k]) == "Mix";
      NameMatchSpec(server, PlaylistName, "Mix");
    }
    var ps := AppendPlaylistAsWritten(None, created).value;
    assert ps == [created];
    NameMatchSpec(ps, PlaylistName, "Mix");
    assert !RoughlyNamed(PlaylistName, created, "Mix") by {
      assert Text.Lower("New")[0] == 'n';
    }
  }

  /** getAlarmById's loop: the first alarm with that id. */
  function AlarmWithId(alarms: seq<Alarm>, id: int): (r: Option<Alarm>)
    ensures r.Some? ==> r.value in alarms && r.value.id == id
    ensures r.None? <==> forall a :: a in alarms ==> a.id != id
  {
    At(alarms, FirstWhere(alarms, HasId(id)))
  }

  // ================================================================ the Network object

  class Network {
    var speakers: Option<seq<Speaker>>
    var playlists: Option<seq<Playlist>>
    var alarms: Option<seq<Alarm>>

    constructor ()
      ensures speakers == None && playlists == None && alarms == None
    {
      speakers := None;
      playlists := None;
      alarms := None;
    }

    /** The topology loop: one entry per player, keyed by host. */
    static method BuildTopology(players: seq<Attributes>, hostOf: string -> Option<string>)
      returns (topology: map<string, Attributes>)
      ensures topology == TopologyMap(players, hostOf)
    {
      topology := map[];
      for i := 0 to |players|
        invariant topology == TopologyMap(players[..i], hostOf)
      {
        assert players[..i + 1][..i] == players[..i];
        var ip := HostKey(hostOf, players[i].location);
        topology := topology[ip := players[i]];
      }
      assert players[..|players|] == players;
    }

    /** getSpeakers, corrected: the speakers are memoised only once the whole join succeeded. */
    method GetSpeakers(env: Env) returns (r: Result<seq<Speaker>>)
      modifies this
      ensures Step(r, speakers) == SpeakersStep(old(speakers), env)
      ensures playlists == old(playlists) && alarms == old(alarms)
    {
      if speakers.Some? {
        return Success(speakers.value);
      }
      var devices := env.devices;
      if |devices| < 1 {
        return Failure(NoDevicesFound);
      }
      var topology := BuildTopology(env.players, env.hostOf);
      var list: seq<Speaker> := [];
      for i := 0 to |devices|
        invariant Join(devices[..i], topology) == JoinState(list, true)
      {
        var device := devices[i];
        assert devices[..i + 1][..i] == devices[..i];
        if !device.isSpeaker {
          continue;
        }
        if device.ip !in topology {
          JoinStops(devices, i + 1, topology);
          return Failure(TopologyLookupFailed);
        }
        list := PutSpeaker(list, Speaker(device.ip, topology[device.ip]));
      }
      assert devices[..|devices|] == devices;
      speakers := Some(list);
      return Success(list);
    }

    /** getSpeakers as written: the memo is set to the empty list before the join. */
    method GetSpeakersAsWritten(env: Env) returns (r: Result<seq<Speaker>>)
      modifies this
      ensures Step(r, speakers) == SpeakersStepAsWritten(old(speakers), env)
      ensures playlists == old(playlists) && alarms == old(alarms)
    {
      if speakers.Some? {
        return Success(speakers.value);
      }
      var devices := env.devices;
      if |devices| < 1 {
        return Failure(NoDevicesFound);
      }
      var topology := BuildTopology(env.players, env.hostOf);
      speakers := Some([]);
      for i := 0 to |devices|
        invariant Join(devices[..i], topology).ok
        invariant speakers == Some(Join(devices[..i], topology).speakers)
        invariant playlists == old(playlists) && alarms == old(alarms)
      {
        var device := devices[i];
        assert devices[..i + 1][..i] == devices[..i];
        if !device.isSpeaker {
          continue;
        }
        if device.ip !in topology {
          JoinStops(devices, i + 1, topology);
          return Failure(TopologyLookupFailed);
        }
        speakers := Some(PutSpeaker(speakers.value, Speaker(device.ip, topology[device.ip])));
      }
      assert devices[..|devices|] == devices;
      return Success(speakers.value);
    }

    /** Forget the speakers; playlists and alarms stay memoised. */
    method ClearTopology()
      modifies this
      ensures speakers == None && playlists == old(playlists) && alarms == old(alarms)
    {
      speakers := None;
    }

    method GetControllers(env: Env) returns (r: Result<seq<Controller>>)
      modifies this
      ensures r == SpeakersStep(old(speakers), env).result.Map(Controllers)
      ensures speakers == SpeakersStep(old(speakers), env).memo
      ensures playlists == old(playlists) && alarms == old(alarms)
    {
      var s := GetSpeakers(env);
      if s.Failure? {
        return Failure(s.error);
      }
      var ss := s.value;
      var controllers: seq<Controller> := [];
      for i := 0 to |ss|
        invariant controllers == Controllers(ss[..i])
      {
        assert ss[..i + 1][..i] == ss[..i];
        if !ss[i].IsCoordinator() {
          continue;
        }
        controllers := controllers + [Controller(ss[i])];
      }
      assert ss[..|ss|] == ss;
      return Success(controllers);
    }

    /** getController: null (None) when there is no coordinator. */
    method GetController(env: Env) returns (r: Result<Option<Controller>>)
      modifies this
      ensures r == SpeakersStep(old(speakers), env).result.Map(FirstController)
      ensures speakers == SpeakersStep(old(speakers), env).memo
      ensures playlists == old(playlists) && alarms == old(alarms)
    {
      var cs := GetControllers(env);
      if cs.Failure? {
        return Failure(cs.error);
      }
      if |cs.value| > 0 {
        return Success(Some(cs.value[0]));
      }
      return Success(None);
    }

    method GetSpeakerByRoom(env: Env, room: string) returns (r: Result<Option<Speaker>>)
      modifies this
      ensures r == SpeakersStep(old(speakers), env).result.Map(ss => FirstInRoom(ss, room))
      ensures speakers == SpeakersStep(old(speakers), env).memo
      ensures playlists == old(playlists) && alarms == old(alarms)
    {
      var s := GetSpeakers(env);
      if s.Failure? {
        return Failure(s.error);
      }
      var ss := s.value;
      for i := 0 to |ss|
        invariant forall j :: 0 <= j < i ==> ss[j].Room() != room
      {
        if ss[i].Room() == room {
          assert FirstWhere(ss, InRoomNamed(room)) == Some(i);
          return Success(Some(ss[i]));
        }
      }
      return Success(None);
    }

    method GetSpeakersByRoom(env: Env, room: string) returns (r: Result<seq<Speaker>>)
      modifies this
      ensures r == SpeakersStep(old(speakers), env).result.Map(ss => InRoom(ss, room))
      ensures speakers == SpeakersStep(old(speakers), env).memo
      ensures playlists == old(playlists) && alarms == old(alarms)
    {
      var s := GetSpeakers(env);
      if s.Failure? {
        return Failure(s.error);
      }
      var ss := s.value;
      var found: seq<Speaker> := [];
      for i := 0 to |ss|
        invariant found == InRoom(ss[..i], room)
      {
        assert ss[..i + 1][..i] == ss[..i];
        if ss[i].Room() == room {
          found := found + [ss[i]];
        }
      }
      assert ss[..|ss|] == ss;
      return Success(found);
    }

    /** The first controller of `group` among `cs`: the loop shared by the two lookups below. */
    static method FindGroup(cs: seq<Controller>, group: string) returns (r: Option<Controller>)
      ensures r == FirstOfGroup(cs, group)
    {
      for i := 0 to |cs|
        invariant forall j :: 0 <= j < i ==> cs[j].Group() != group
      {
        if cs[i].Group() == group {
          assert FirstWhere(cs, OfGroup(group)) == Some(i);
          return Some(cs[i]);
        }
      }
      return None;
    }

    method GetControllerByRoom(env: Env, room: string) returns (r: Result<Option<Controller>>)
      modifies this
      ensures r == SpeakersStep(old(speakers), env).result.Map(ss => ControllerByRoom(ss, room))
      ensures speakers == SpeakersStep(old(speakers), env).memo
      ensures playlists == old(playlists) && alarms == old(alarms)
    {
      var s := GetSpeakerByRoom(env, room);
      if s.Failure? {
        return Failure(s.error);
      }
      if s.value.None? {
        return Success(None);
      }
      var group := s.value.value.Group();
      var cs := GetControllers(env);
      var c := FindGroup(cs.value, group);
      return Success(c);
    }

    /** getControllerByIp: an unknown address is an InvalidArgumentException. */
    method GetControllerByIp(env: Env, ip: string) returns (r: Result<Option<Controller>>)
      modifies this
      ensures r == match SpeakersStep(old(speakers), env).result
                   case Failure(e) => Failure(e)
                   case Success(ss) => ControllerByIp(ss, ip)
      ensures speakers == SpeakersStep(old(speakers), env).memo
      ensures playlists == old(playlists) && alarms == old(alarms)
    {
      var s := GetSpeakers(env);
      if s.Failure? {
        return Failure(s.error);
      }
      var ss := s.value;
      var speaker := FindSpeaker(ss, ip);
      if speaker.None? {
        return Failure(NoSpeakerForIp(ip));
      }
      var group := speaker.value.Group();
      var cs := GetControllers(env);
      var c := FindGroup(cs.value, group);
      return Success(c);
    }

    /** The loop of getControllerByIp: `$speakers[$ip]`, if the key exists. */
    static method FindSpeaker(ss: seq<Speaker>, ip: string) returns (r: Option<Speaker>)
      ensures r == SpeakerWithIp(ss, ip)
    {
      for i := 0 to |ss|
        invariant forall j :: 0 <= j < i ==> ss[j].ip != ip
      {
        if ss[i].ip == ip {
          FirstWhereIs(ss, HasIp(ip), i);
          return Some(ss[i]);
        }
      }
      FirstWhereNone(ss, HasIp(ip));
      return None;
    }

    /** getPlaylists: a memoised list is answered as is; otherwise the list the Browse call
        returns (`fetched`) is memoised, provided there is a controller to ask. */
    method GetPlaylists(env: Env, fetched: seq<Playlist>) returns (r: Result<seq<Playlist>>)
      modifies this
      ensures old(playlists).Some? ==> r == Success(old(playlists).value) && unchanged(this)
      ensures old(playlists).None? ==>
                var step := SpeakersStep(old(speakers), env);
                && speakers == step.memo && alarms == old(alarms)
                && r == PlaylistsAnswer(step.result.Map(FirstController), fetched)
                && playlists == (if r.Success? then Some(fetched) else None)
    {
      if playlists.Some? {
        return Success(playlists.value);
      }
      var controller := GetController(env);
      if controller.Failure? {
        return Failure(controller.error);
      }
      if controller.value.None? {
        return Failure(NoControllerFound);
      }
      playlists := Some(fetched);
      return Success(fetched);
    }

    method HasPlaylist(env: Env, fetched: seq<Playlist>, name: string) returns (r: Result<bool>)
      modifies this
      ensures var before := PlaylistsBefore(old(playlists), old(speakers), env, fetched);
              r == before.Map(ps => NameMatch(ps, PlaylistName, name).Some?)
      ensures old(playlists).Some? ==> unchanged(this)
      ensures old(playlists).None? ==>
                var step := SpeakersStep(old(speakers), env);
                && speakers == step.memo && alarms == old(alarms)
                && playlists == (if r.Success? then Some(fetched) else None)
    {
      var ps := GetPlaylists(env, fetched);
      if ps.Failure? {
        return Failure(ps.error);
      }
      var b := HasMatch(ps.value, PlaylistName, name);
      return Success(b);
    }

    /** getPlaylistByName: the first exact match, else the last case-insensitive one. */
    method GetPlaylistByName(env: Env, fetched: seq<Playlist>, name: string)
      returns (r: Result<Option<Playlist>>)
      modifies this
      ensures var before := PlaylistsBefore(old(playlists), old(speakers), env, fetched);
              r == before.Map(ps => NameMatch(ps, PlaylistName, name))
      ensures old(playlists).Some? ==> unchanged(this)
      ensures old(playlists).None? ==>
                var step := SpeakersStep(old(speakers), env);
                && speakers == step.memo && alarms == old(alarms)
                && playlists == (if r.Success? then Some(fetched) else None)
    {
      var ps := GetPlaylists(env, fetched);
      if ps.Failure? {
        return Failure(ps.error);
      }
      var p := FindByName(ps.value, PlaylistName, name);
      return Success(p);
    }

    /** createPlaylist as written: the new playlist (id from CreateSavedQueue) is appended to
        the memo, which an unset memo turns into a one-element list. */
    method CreatePlaylistAsWritten(env: Env, assignedId: string, name: string)
      returns (r: Result<Playlist>)
      modifies this
      ensures var step := SpeakersStep(old(speakers), env);
              && speakers == step.memo && alarms == old(alarms)
              && r == ControllerNeeded(step.result.Map(FirstController)).Map(_ => Playlist(assignedId, name))
              && playlists == (if r.Success? then AppendPlaylistAsWritten(old(playlists), r.value)
                               else old(playlists))
    {
      var controller := GetController(env);
      if controller.Failure? {
        return Failure(controller.error);
      }
      if controller.value.None? {
        return Failure(NoControllerFound);
      }
      var playlist := Playlist(assignedId, name);
      playlists := Some(playlists.GetOr([]) + [playlist]);
      return Success(playlist);
    }

    /** createPlaylist, corrected: an unset memo is left unset. */
    method CreatePlaylist(env: Env, assignedId: string, name: string) returns (r: Result<Playlist>)
      modifies this
      ensures var step := SpeakersStep(old(speakers), env);
              && speakers == step.memo && alarms == old(alarms)
              && r == ControllerNeeded(step.result.Map(FirstController)).Map(_ => Playlist(assignedId, name))
              && playlists == (if r.Success? then AppendPlaylist(old(playlists), r.value)
                               else old(playlists))
    {
      var controller := GetController(env);
      if controller.Failure? {
        return Failure(controller.error);
      }
      if controller.value.None? {
        return Failure(NoControllerFound);
      }
      var playlist := Playlist(assignedId, name);
      if playlists.Some? {
        playlists := Some(playlists.value + [playlist]);
      }
      return Success(playlist);
    }

    /** getAlarms: `getController()->soap(...)` on a null controller is an Error. */
    method GetAlarms(env: Env, fetched: seq<Alarm>) returns (r: Result<seq<Alarm>>)
      modifies this
      ensures old(alarms).Some? ==> r == Success(old(alarms).value) && unchanged(this)
      ensures old(alarms).None? ==>
                var step := SpeakersStep(old(speakers), env);
                var c := step.result.Map(FirstController);
                && speakers == step.memo && playlists == old(playlists)
                && r == (if c.Failure? then Failure(c.error)
                         else if c.value.None? then Failure(CallOnNull) else Success(fetched))
                && alarms == (if r.Success? then Some(fetched) else None)
    {
      if alarms.Some? {
        return Success(alarms.value);
      }
      var controller := GetController(env);
      if controller.Failure? {
        return Failure(controller.error);
      }
      if controller.value.None? {
        return Failure(CallOnNull);
      }
      alarms := Some(fetched);
      return Success(fetched);
    }

    /** The loop of getAlarmById: the first alarm whose id is `id`. */
    static method FindAlarm(list: seq<Alarm>, id: int) returns (r: Option<Alarm>)
      ensures r == AlarmWithId(list, id)
    {
      for i := 0 to |list|
        invariant forall j :: 0 <= j < i ==> list[j].id != id
      {
        if list[i].id == id {
          FirstWhereIs(list, HasId(id), i);
          return Some(list[i]);
        }
      }
      FirstWhereNone(list, HasId(id));
      return None;
    }

    method GetAlarmById(env: Env, fetched: seq<Alarm>, id: int) returns (r: Result<Option<Alarm>>)
      modifies this
      ensures old(alarms).Some? ==> r == Success(AlarmWithId(old(alarms).value, id)) && unchanged(this)
      ensures old(alarms).None? ==>
                var step := SpeakersStep(old(speakers), env);
                var c := step.result.Map(FirstController);
                && speakers == step.memo && playlists == old(playlists)
                && r == (if c.Failure? then Failure(c.error)
                         else if c.value.None? then Failure(CallOnNull)
                         else Success(AlarmWithId(fetched, id)))
                && alarms == (if r.Success? then Some(fetched) else None)
    {
      var found := GetAlarms(env, fetched);
      if found.Failure? {
        return Failure(found.error);
      }
      var alarm := FindAlarm(found.value, id);
      return Success(alarm);
    }
  }

  /** A controller is needed: none at all is "No controller found". */
  function ControllerNeeded(c: Result<Option<Controller>>): Result<Controller> {
    match c
    case Failure(e) => Failure(e)
    case Success(None) => Failure(NoControllerFound)
    case Success(Some(x)) => Success(x)
  }

  function PlaylistsAnswer(c: Result<Option<Controller>>, fetched: seq<Playlist>): Result<seq<Playlist>> {
    ControllerNeeded(c).Map(_ => fetched)
  }

  /** The list getPlaylists answers, from the memos before the call. */
  function PlaylistsBefore(playlists: Option<seq<Playlist>>, speakers: Option<seq<Speaker>>,
                           env: Env, fetched: seq<Playlist>): Result<seq<Playlist>> {
    if playlists.Some? then Success(playlists.value)
    else PlaylistsAnswer(SpeakersStep(speakers, env).result.Map(FirstController), fetched)
  }
}
