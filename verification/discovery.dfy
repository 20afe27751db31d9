/**
  DeviceCollection (src/DeviceCollection.php): the SSDP probe, the parsing of the text
  collected from search responses into header maps, the ZonePlayer filter, the
  de-duplication by USN, and the duplicate-free address list written through to a cache.

  The UDP socket work is not modelled: the text the collection loop accumulates is an
  input (`response`), and so is `parse_url(...)["host"]` (`hostOf`, None when the URL has
  no host part).
 */
module Discovery {
  import opened Wrappers
  import opened Seqs
  import opened Text

  const CACHE_KEY := "device-ip-addresses-2.0.0"
  const ZONE_PLAYER := "urn:schemas-upnp-org:device:ZonePlayer:1"
  const MULTICAST_ADDRESS := "239.255.255.250"
  const REPLY_SEPARATOR := "\r\n\r\n"
  const LINE_SEPARATOR := "\r\n"
  const SSDP_DISCOVER := "ssdp:discover"
  /** The MX header: how many seconds a device may wait before it answers. */
  const MX_SECONDS := "1"
  /** What follows the address in the HOST header, as the request spells it. */
  const HOST_SUFFIX := ":reservedSSDPport"

  /** The header map of one reply: lower-cased name to trimmed value. */
  type Headers = map<string, string>

  /** What getDevices hands out: one Device per known address. */
  datatype Device = Device(ip: string)

  // ================================================================ the probe

  /** The lines of the M-SEARCH request sent to `address` (on UDP port 1900). */
  function ProbeLines(address: string): seq<string> {
    ["M-SEARCH * HTTP/1.1",
     HeaderLine("HOST", address + HOST_SUFFIX),
     HeaderLine("MAN", SSDP_DISCOVER),
     HeaderLine("MX", MX_SECONDS),
     HeaderLine("ST", ZONE_PLAYER)]
  }

  /** "Name: value". */
  function HeaderLine(name: string, value: string): string {
    name + ": " + value
  }

  /** The datagram: every line followed by CRLF. */
  function Probe(address: string): string {
    JoinWith(ProbeLines(address) + [""], LINE_SEPARATOR)
  }

  // ================================================================ parsing replies

  /** One header line: split at the first ':'; no ':' at all, or one in first position,
      and the line is ignored (`!$pos` is true for both false and 0). */
  function ParseLine(line: string): Option<(string, string)> {
    match IndexOf(line, ":")
    case None => None
    case Some(pos) => if pos == 0 then None else Some((Lower(line[..pos]), Trim(line[pos + 1..])))
  }

  predicate SetsKey(line: string, key: string) {
    ParseLine(line).Some? && ParseLine(line).value.0 == key
  }

  /** The header map built line by line; a later line with the same key overwrites. */
  function HeaderMap(lines: seq<string>): Headers
    decreases |lines|
  {
    if lines == [] then map[]
    else
      var m := HeaderMap(lines[..|lines| - 1]);
      match ParseLine(lines[|lines| - 1])
      case None => m
      case Some(kv) => m[kv.0 := kv.1]
  }

  function ReplyHeaders(reply: string): Headers {
    HeaderMap(Split(reply, LINE_SEPARATOR))
  }

  /** `!$reply`: PHP treats both "" and "0" as false. */
  predicate Falsy(s: string) {
    s == "" || s == "0"
  }

  /** One header map per block that is not falsy, in block order. */
  function ParseBlocks(blocks: seq<string>): seq<Headers>
    decreases |blocks|
  {
    if blocks == [] then []
    else
      var done := ParseBlocks(blocks[..|blocks| - 1]);
      var b := blocks[|blocks| - 1];
      if Falsy(b) then done else done + [ReplyHeaders(b)]
  }

  function ParseResponse(response: string): seq<Headers> {
    ParseBlocks(Split(response, REPLY_SEPARATOR))
  }

  /** A line is ignored exactly when it has no ':' or starts with one; otherwise its key
      is the lower-cased text before the first ':' and its value the trimmed rest. */
  lemma ParseLineSpec(line: string)
    ensures ParseLine(line).None? <==> ':' !in line || line[0] == ':'
    ensures ParseLine(line).Some? ==>
              exists p :: 0 < p < |line| && line[p] == ':' && ':' !in line[..p]
                          && ParseLine(line).value == (Lower(line[..p]), Trim(line[p + 1..]))
    ensures ParseLine(line).Some? ==> IsLowerCase(ParseLine(line).value.0)
    ensures ParseLine(line).Some? ==> Trimmed(ParseLine(line).value.1)
  {
    IndexOfChar(line, ':');
    if ParseLine(line).Some? {
      LowerIsLowerCase(line[..IndexOf(line, ":").value]);
    }
  }

  /** A "Name: value" line whose name has no ':' parses to the lower-cased name and the value. */
  lemma ParseHeaderLine(line: string, name: string, value: string)
    requires line == HeaderLine(name, value)
    requires name != [] && ':' !in name && Trimmed(value)
    ensures ParseLine(line) == Some((Lower(name), value))
  {
    IndexOfAfter(name, ":", " " + value);
    assert line == name + ":" + (" " + value);
    assert line[..|name|] == name;
    assert line[|name| + 1..] == " " + value;
    TrimPadded(" ", value);
  }

  /** A line without ':' is no header. */
  lemma ParseLineNoColon(line: string)
    requires ':' !in line
    ensures ParseLine(line) == None
  {
    IndexOfChar(line, ':');
  }

  lemma HeaderMapSnoc(lines: seq<string>, line: string)
    ensures HeaderMap(lines + [line]) ==
              match ParseLine(line)
              case None => HeaderMap(lines)
              case Some(kv) => HeaderMap(lines)[kv.0 := kv.1]
  {
    assert (lines + [line])[..|lines|] == lines;
  }

  /** The keys of a header map are exactly the keys some line of the reply sets. */
  lemma {:induction false} HeaderMapKeys(lines: seq<string>, key: string)
    ensures key in HeaderMap(lines) <==> exists j :: 0 <= j < |lines| && SetsKey(lines[j], key)
    decreases |lines|
  {
    if lines != [] {
      var init, last := lines[..|lines| - 1], lines[|lines| - 1];
      HeaderMapKeys(init, key);
      assert key in HeaderMap(lines) <==> key in HeaderMap(init) || SetsKey(last, key);
      forall j | 0 <= j < |init| ensures init[j] == lines[j] { }
    }
  }

  /** Every key of a header map is lower-case, whatever case the reply used. */
  lemma HeaderMapLowerCase(lines: seq<string>, key: string)
    requires key in HeaderMap(lines)
    ensures IsLowerCase(key)
  {
    HeaderMapKeys(lines, key);
    var j :| 0 <= j < |lines| && SetsKey(lines[j], key);
    ParseLineSpec(lines[j]);
  }

  /** The value kept for a key is the one on the last line that sets it. */
  lemma {:induction false} HeaderMapLastWins(lines: seq<string>, j: nat)
    requires j < |lines| && ParseLine(lines[j]).Some?
    requires forall j' :: j < j' < |lines| ==> !SetsKey(lines[j'], ParseLine(lines[j]).value.0)
    ensures ParseLine(lines[j]).value.0 in HeaderMap(lines)
    ensures HeaderMap(lines)[ParseLine(lines[j]).value.0] == ParseLine(lines[j]).value.1
    decreases |lines|
  {
    var init, last := lines[..|lines| - 1], lines[|lines| - 1];
    assert lines == init + [last];
    if j < |lines| - 1 {
      forall j' | j < j' < |init| ensures !SetsKey(init[j'], ParseLine(init[j]).value.0) {
        assert init[j'] == lines[j'];
      }
      HeaderMapLastWins(init, j);
    }
  }

  /** Every value in a header map is trimmed: no blank at either end. */
  lemma {:induction false} HeaderMapValuesTrimmed(lines: seq<string>)
    ensures forall k :: k in HeaderMap(lines) ==> Trimmed(HeaderMap(lines)[k])
    decreases |lines|
  {
    if lines != [] {
      HeaderMapValuesTrimmed(lines[..|lines| - 1]);
      ParseLineSpec(lines[|lines| - 1]);
    }
  }

  /** Blocks are parsed independently and in order: parsing two runs of blocks one after
      the other gives the two results one after the other. */
  lemma {:induction false} ParseBlocksAppend(a: seq<string>, b: seq<string>)
    ensures ParseBlocks(a + b) == ParseBlocks(a) + ParseBlocks(b)
    decreases |b|
  {
    if b == [] {
      assert a + b == a;
    } else {
      var init := b[..|b| - 1];
      ParseBlocksAppend(a, init);
      assert (a + b)[..|a + b| - 1] == a + init;
      assert (a + b)[|a + b| - 1] == b[|b| - 1];
    }
  }

  /** A single block yields nothing when falsy and exactly its header map otherwise. */
  lemma ParseBlocksOne(b: string)
    ensures ParseBlocks([b]) == if Falsy(b) then [] else [ReplyHeaders(b)]
  {
    assert [b][..0] == [];
  }

  /** None of the probe's fixed texts holds a carriage return. */
  lemma RequestLineNoCr()
    ensures '\r' !in "M-SEARCH * HTTP/1.1" && '\r' !in HOST_SUFFIX
  {
  }

  lemma HeaderValuesNoCr()
    ensures '\r' !in SSDP_DISCOVER && '\r' !in MX_SECONDS
  {
  }

  lemma ZonePlayerNoCr()
    ensures '\r' !in ZONE_PLAYER
  {
  }

  lemma HeaderLineNoCr(name: string, value: string)
    requires '\r' !in name && '\r' !in value
    ensures '\r' !in HeaderLine(name, value)
  {
  }

  /** No line of the probe holds a carriage return. */
  lemma ProbeLinesNoCr(address: string)
    requires '\r' !in address
    ensures forall i :: 0 <= i < |ProbeLines(address)| ==> '\r' !in ProbeLines(address)[i]
  {
    RequestLineNoCr();
    HeaderValuesNoCr();
    ZonePlayerNoCr();
    HeaderLineNoCr("HOST", address + HOST_SUFFIX);
    HeaderLineNoCr("MAN", SSDP_DISCOVER);
    HeaderLineNoCr("MX", MX_SECONDS);
    HeaderLineNoCr("ST", ZONE_PLAYER);
  }

  /** Split back at CRLF, the probe gives its lines and the empty piece after the last CRLF. */
  lemma ProbeSplit(address: string)
    requires '\r' !in address
    ensures Split(Probe(address), LINE_SEPARATOR) == ProbeLines(address) + [""]
  {
    var ls := ProbeLines(address) + [""];
    ProbeLinesNoCr(address);
    assert forall i :: 0 <= i < |ls| ==> LINE_SEPARATOR[0] !in ls[i];
    JoinSplit(ls, LINE_SEPARATOR);
  }

  /** The names of the probe's headers, lower-cased. */
  lemma LowerHeaderNames()
    ensures Lower("HOST") == "host" && Lower("MAN") == "man"
    ensures Lower("MX") == "mx" && Lower("ST") == "st"
  {
  }

  /** The HOST value neither starts nor ends with a blank. */
  lemma HostTrimmed(address: string)
    requires Trimmed(address)
    ensures Trimmed(address + HOST_SUFFIX)
  {
    var host := address + HOST_SUFFIX;
    assert host[|host| - 1] == HOST_SUFFIX[|HOST_SUFFIX| - 1] == 't';
    if address == [] {
      assert host[0] == HOST_SUFFIX[0] == ':';
    } else {
      assert host[0] == address[0];
    }
  }

  // The probe's header lines, one at a time: each parses to its lower-cased name and value.

  lemma ProbeHostParses(address: string)
    requires ':' !in address && Trimmed(address)
    ensures ParseLine(ProbeLines(address)[1]) == Some(("host", address + HOST_SUFFIX))
  {
    HostTrimmed(address);
    ParseHeaderLine(ProbeLines(address)[1], "HOST", address + HOST_SUFFIX);
    LowerHeaderNames();
  }

  lemma ProbeManParses(address: string)
    ensures ParseLine(ProbeLines(address)[2]) == Some(("man", SSDP_DISCOVER))
  {
    ParseHeaderLine(ProbeLines(address)[2], "MAN", SSDP_DISCOVER);
    LowerHeaderNames();
  }

  lemma ProbeMxParses(address: string)
    ensures ParseLine(ProbeLines(address)[3]) == Some(("mx", MX_SECONDS))
  {
    ParseHeaderLine(ProbeLines(address)[3], "MX", MX_SECONDS);
    LowerHeaderNames();
  }

  lemma ProbeStParses(address: string)
    ensures ParseLine(ProbeLines(address)[4]) == Some(("st", ZONE_PLAYER))
  {
    ParseHeaderLine(ProbeLines(address)[4], "ST", ZONE_PLAYER);
    LowerHeaderNames();
  }

  /** The probe, read back with the same header rules, carries the four headers HOST, MAN,
      MX and ST, and its ST is the ZonePlayer type the reply filter looks for. */
  lemma ProbeHeaders(address: string)
    requires '\r' !in address && ':' !in address && Trimmed(address)
    ensures ReplyHeaders(Probe(address)) ==
              map["host" := address + HOST_SUFFIX, "man" := SSDP_DISCOVER,
                  "mx" := MX_SECONDS, "st" := ZONE_PLAYER]
  {
    var ls := ProbeLines(address);
    ProbeSplit(address);
    ParseLineNoColon(ls[0]);
    ParseLineNoColon("");
    ProbeHostParses(address);
    ProbeManParses(address);
    ProbeMxParses(address);
    ProbeStParses(address);
    FourHeaders(ls + [""], address + HOST_SUFFIX, SSDP_DISCOVER, MX_SECONDS, ZONE_PLAYER);
  }

  /** A line that sets a header adds it to what the earlier lines built. */
  lemma HeaderMapSets(lines: seq<string>, line: string, key: string, value: string)
    requires ParseLine(line) == Some((key, value))
    ensures HeaderMap(lines + [line]) == HeaderMap(lines)[key := value]
  {
    HeaderMapSnoc(lines, line);
  }

  /** A six-line reply, taken apart line by line from the front. */
  lemma SixLines<T>(lines: seq<T>)
    requires |lines| == 6
    ensures lines == [lines[0]] + [lines[1]] + [lines[2]] + [lines[3]] + [lines[4]] + [lines[5]]
  {
  }

  /** Six lines, the first and last without a header and four headers between. */
  lemma FourHeaders(lines: seq<string>, host: string, man: string, mx: string, st: string)
    requires |lines| == 6 && ParseLine(lines[0]).None? && ParseLine(lines[5]).None?
    requires ParseLine(lines[1]) == Some(("host", host)) && ParseLine(lines[2]) == Some(("man", man))
    requires ParseLine(lines[3]) == Some(("mx", mx)) && ParseLine(lines[4]) == Some(("st", st))
    ensures HeaderMap(lines) == map["host" := host, "man" := man, "mx" := mx, "st" := st]
  {
    SixLines(lines);
    var p1 := [lines[0]];
    var p2 := p1 + [lines[1]];
    var p3 := p2 + [lines[2]];
    var p4 := p3 + [lines[3]];
    var p5 := p4 + [lines[4]];
    HeaderMapSnoc([], lines[0]);
    assert [] + [lines[0]] == p1;
    HeaderMapSets(p1, lines[1], "host", host);
    HeaderMapSets(p2, lines[2], "man", man);
    HeaderMapSets(p3, lines[3], "mx", mx);
    HeaderMapSets(p4, lines[4], "st", st);
    HeaderMapSnoc(p5, lines[5]);
  }

  // ================================================================ filter and de-duplication

  predicate IsZonePlayer(d: Headers) {
    "st" in d && d["st"] == ZONE_PLAYER
  }

  /** `$device["usn"]`; a missing header reads as null, and since `in_array` compares
      loosely (null == "" and null == null), null behaves exactly like "". */
  function UsnOf(d: Headers): string {
    if "usn" in d then d["usn"] else ""
  }

  /** `$device["location"]`; a missing header reads as null, which parse_url takes as "". */
  function LocationOf(d: Headers): string {
    if "location" in d then d["location"] else ""
  }

  /** The state of the filter loop: the USNs seen (`$unique`), the hosts handed to addIp,
      and whether the loop is still running (false once addIp was given a null host). */
  datatype ScanState = ScanState(seen: seq<string>, hosts: seq<string>, ok: bool)

  function Scan(ds: seq<Headers>, hostOf: string -> Option<string>): ScanState
    decreases |ds|
  {
    if ds == [] then ScanState([], [], true)
    else
      var st := Scan(ds[..|ds| - 1], hostOf);
      var d := ds[|ds| - 1];
      if !st.ok || !IsZonePlayer(d) || UsnOf(d) in st.seen then st
      else match hostOf(LocationOf(d))
        case None => ScanState(st.seen + [UsnOf(d)], st.hosts, false)
        case Some(h) => ScanState(st.seen + [UsnOf(d)], st.hosts + [h], true)
  }

  /** The scan of one more reply is one more step of the loop. */
  lemma ScanPrefixStep(ds: seq<Headers>, i: nat, hostOf: string -> Option<string>)
    requires i < |ds|
    ensures Scan(ds[..i + 1], hostOf) ==
              var st := Scan(ds[..i], hostOf);
              var d := ds[i];
              if !st.ok || !IsZonePlayer(d) || UsnOf(d) in st.seen then st
              else match hostOf(LocationOf(d))
                case None => ScanState(st.seen + [UsnOf(d)], st.hosts, false)
                case Some(h) => ScanState(st.seen + [UsnOf(d)], st.hosts + [h], true)
  {
    assert ds[..i + 1][..i] == ds[..i];
  }

  predicate IsFirstFor(ds: seq<Headers>, j: int, usn: string) {
    0 <= j < |ds| && IsZonePlayer(ds[j]) && UsnOf(ds[j]) == usn
    && forall j' :: 0 <= j' < j ==> !(IsZonePlayer(ds[j']) && UsnOf(ds[j']) == usn)
  }

  /** Once the loop has stopped on a missing host, later replies change nothing. */
  lemma {:induction false} ScanStops(ds: seq<Headers>, i: nat, hostOf: string -> Option<string>)
    requires i <= |ds| && !Scan(ds[..i], hostOf).ok
    ensures Scan(ds, hostOf) == Scan(ds[..i], hostOf)
    decreases |ds|
  {
    if i < |ds| {
      var init := ds[..|ds| - 1];
      assert init[..i] == ds[..i];
      ScanStops(init, i, hostOf);
    } else {
      assert ds[..i] == ds;
    }
  }

  /** The USNs seen are distinct; one host is taken per USN, except for the USN whose
      location had no host, which stops the loop; and when the loop runs to the end, every
      ZonePlayer reply's USN has been seen. */
  lemma {:induction false} ScanShape(ds: seq<Headers>, hostOf: string -> Option<string>)
    ensures Distinct(Scan(ds, hostOf).seen)
    ensures |Scan(ds, hostOf).hosts| == if Scan(ds, hostOf).ok then |Scan(ds, hostOf).seen|
                                        else |Scan(ds, hostOf).seen| - 1
    ensures Scan(ds, hostOf).ok ==>
              forall j :: 0 <= j < |ds| && IsZonePlayer(ds[j]) ==> UsnOf(ds[j]) in Scan(ds, hostOf).seen
    decreases |ds|
  {
    if ds != [] {
      var init := ds[..|ds| - 1];
      ScanShape(init, hostOf);
      forall j | 0 <= j < |init| ensures ds[j] == init[j] { }
    }
  }

  /** A reply that is the first for its USN among the first `n` replies stays the first
      among all of them. */
  lemma FirstForPrefix(ds: seq<Headers>, n: nat, j: int, usn: string)
    requires n <= |ds| && IsFirstFor(ds[..n], j, usn)
    ensures IsFirstFor(ds, j, usn)
  {
    forall j' | 0 <= j' <= j ensures ds[j'] == ds[..n][j'] { }
  }

  /** The i-th USN seen belongs to a ZonePlayer reply that is the first to carry it, and the
      i-th host taken is that reply's host: later replies repeating a USN are ignored,
      whatever location they give. */
  ghost predicate TakenFromFirst(ds: seq<Headers>, hostOf: string -> Option<string>, st: ScanState, i: nat)
    requires i < |st.seen|
  {
    exists j :: IsFirstFor(ds, j, st.seen[i])
                && (i < |st.hosts| ==> hostOf(LocationOf(ds[j])) == Some(st.hosts[i]))
  }

  lemma {:induction false} ScanFirstWins(ds: seq<Headers>, hostOf: string -> Option<string>)
    ensures forall i :: 0 <= i < |Scan(ds, hostOf).seen| ==>
              TakenFromFirst(ds, hostOf, Scan(ds, hostOf), i)
    decreases |ds|
  {
    if ds != [] {
      var n := |ds| - 1;
      var init, d := ds[..n], ds[n];
      ScanFirstWins(init, hostOf);
      ScanShape(init, hostOf);
      var st := Scan(init, hostOf);
      var r := Scan(ds, hostOf);
      var isNew := st.ok && IsZonePlayer(d) && UsnOf(d) !in st.seen;
      assert !isNew ==> r == st;
      assert isNew ==> r.seen == st.seen + [UsnOf(d)];
      assert isNew ==> r.hosts == st.hosts || r.hosts == st.hosts + [hostOf(LocationOf(d)).value];
      assert isNew ==> |st.hosts| == |st.seen|;
      forall i | 0 <= i < |r.seen| ensures TakenFromFirst(ds, hostOf, r, i) {
        if i < |st.seen| {
          assert TakenFromFirst(init, hostOf, st, i);
          var j :| IsFirstFor(init, j, st.seen[i])
                   && (i < |st.hosts| ==> hostOf(LocationOf(init[j])) == Some(st.hosts[i]));
          assert r.seen[i] == st.seen[i];
          FirstForPrefix(ds, n, j, st.seen[i]);
          assert ds[j] == init[j];
          if i < |r.hosts| {
            assert i < |st.hosts| && r.hosts[i] == st.hosts[i];
          }
          assert IsFirstFor(ds, j, r.seen[i]);
        } else {
          var u := UsnOf(d);
          forall j' | 0 <= j' < n ensures !(IsZonePlayer(ds[j']) && UsnOf(ds[j']) == u) {
            assert ds[j'] == init[j'];
          }
          assert r.seen[i] == u;
          assert IsFirstFor(ds, n, r.seen[i]);
        }
      }
    }
  }

  // ================================================================ the collection

  /** `Device`s for a list of addresses, one each, in list order. */
  function Devices(addresses: seq<string>): (r: seq<Device>)
    ensures |r| == |addresses|
  {
    seq(|addresses|, i requires 0 <= i < |addresses| => Device(addresses[i]))
  }

  /** The long-lived cache shared with Network; only the address-list entry is modelled. */
  class Cache {
    var store: map<string, seq<string>>

    constructor (initial: map<string, seq<string>>)
      ensures store == initial
    {
      store := initial;
    }

    method Contains(key: string) returns (b: bool)
      ensures b <==> key in store
    {
      b := key in store;
    }

    /** Doctrine's fetch answers false for a missing key: None here. */
    method Fetch(key: string) returns (v: Option<seq<string>>)
      ensures v.Some? <==> key in store
      ensures v.Some? ==> v.value == store[key]
    {
      v := if key in store then Some(store[key]) else None;
    }

    method Save(key: string, value: seq<string>)
      modifies this
      ensures store == old(store)[key := value]
    {
      store := store[key := value];
    }
  }

  class DeviceCollection {
    var addresses: seq<string>
    const cache: Cache

    constructor (cache: Cache)
      ensures addresses == [] && this.cache == cache
    {
      addresses := [];
      this.cache := cache;
    }

    /** A known address changes nothing, not even the cache; a new one is appended and the
        whole list saved under CACHE_KEY. The list stays duplicate-free. */
    method AddIp(ip: string)
      modifies this, cache
      ensures addresses == AppendNew(old(addresses), ip)
      ensures ip in old(addresses) ==> cache.store == old(cache.store)
      ensures ip !in old(addresses) ==> cache.store == old(cache.store)[CACHE_KEY := addresses]
      ensures Distinct(old(addresses)) ==> Distinct(addresses)
    {
      if ip !in addresses {
        addresses := addresses + [ip];
        cache.Save(CACHE_KEY, addresses);
      }
    }

    /** The parsing loops of discoverDevices: one header map per non-falsy reply block. */
    static method ParseReplies(response: string) returns (devices: seq<Headers>)
      ensures devices == ParseResponse(response)
    {
      var replies := Split(response, REPLY_SEPARATOR);
      devices := [];
      for i := 0 to |replies|
        invariant devices == ParseBlocks(replies[..i])
      {
        var reply := replies[i];
        assert replies[..i + 1][..i] == replies[..i];
        if Falsy(reply) {
          continue;
        }
        var data := ParseHeaders(reply);
        devices := devices + [data];
      }
      assert replies[..|replies|] == replies;
    }

    /** The inner loop: header lines into a map, a later duplicate key overwriting. */
    static method ParseHeaders(reply: string) returns (data: Headers)
      ensures data == ReplyHeaders(reply)
    {
      var lines := Split(reply, LINE_SEPARATOR);
      data := map[];
      for i := 0 to |lines|
        invariant data == HeaderMap(lines[..i])
      {
        var line := lines[i];
        assert lines[..i + 1][..i] == lines[..i];
        var pos := IndexOf(line, ":");
        if pos.None? || pos.value == 0 {
          continue;
        }
        var key := Lower(line[..pos.value]);
        var val := Trim(line[pos.value + 1..]);
        data := data[key := val];
      }
      assert lines[..|lines|] == lines;
    }

    /** discoverDevices after the socket loop: every ZonePlayer reply with a USN not seen
        before in this run hands its location's host to addIp. A host that parse_url cannot
        find makes addIp throw (ok == false); the addresses added before it stay. */
    method DiscoverDevices(response: string, hostOf: string -> Option<string>) returns (ok: bool)
      modifies this, cache
      ensures var scan := Scan(ParseResponse(response), hostOf);
              addresses == AppendAllNew(old(addresses), scan.hosts) && ok == scan.ok
      ensures addresses == old(addresses) ==> cache.store == old(cache.store)
      ensures addresses != old(addresses) ==> cache.store == old(cache.store)[CACHE_KEY := addresses]
      ensures Distinct(old(addresses)) ==> Distinct(addresses)
    {
      var devices := ParseReplies(response);
      var unique: seq<string> := [];
      ghost var hosts: seq<string> := [];
      for i := 0 to |devices|
        invariant Scan(devices[..i], hostOf) == ScanState(unique, hosts, true)
        invariant addresses == AppendAllNew(old(addresses), hosts)
        invariant |addresses| >= |old(addresses)|
        invariant addresses == old(addresses) ==> cache.store == old(cache.store)
        invariant addresses != old(addresses) ==> cache.store == old(cache.store)[CACHE_KEY := addresses]
        invariant Distinct(old(addresses)) ==> Distinct(addresses)
      {
        var device := devices[i];
        ScanPrefixStep(devices, i, hostOf);
        if !IsZonePlayer(device) {
          continue;
        }
        var usn := UsnOf(device);
        if usn in unique {
          continue;
        }
        unique := unique + [usn];
        var host := hostOf(LocationOf(device));
        if host.None? {
          ScanStops(devices, i + 1, hostOf);
          assert devices[..|devices|] == devices;
          return false;
        }
        AppendAllNewSnoc(old(addresses), hosts, host.value);
        hosts := hosts + [host.value];
        AddIp(host.value);
      }
      assert devices[..|devices|] == devices;
      return true;
    }

    /** The in-memory list is used when it has an entry; otherwise the cache entry when there
        is one; otherwise discovery runs. One Device per address, in list order. */
    method GetDevices(response: string, hostOf: string -> Option<string>) returns (r: Result<seq<Device>>)
      modifies this, cache
      ensures old(addresses) != [] ==> addresses == old(addresses) && cache.store == old(cache.store)
      ensures old(addresses) == [] && CACHE_KEY in old(cache.store) ==>
                addresses == old(cache.store)[CACHE_KEY] && cache.store == old(cache.store)
      ensures old(addresses) == [] && CACHE_KEY !in old(cache.store) ==>
                var scan := Scan(ParseResponse(response), hostOf);
                && addresses == AppendAllNew([], scan.hosts)
                && cache.store == (if addresses == [] then old(cache.store)
                                   else old(cache.store)[CACHE_KEY := addresses])
                && (r.Failure? <==> !scan.ok)
      ensures r.Failure? ==> r.error == MissingHost
                             && old(addresses) == [] && CACHE_KEY !in old(cache.store)
      ensures r.Success? ==> r.value == Devices(addresses)
    {
      if |addresses| < 1 {
        var cached := cache.Contains(CACHE_KEY);
        if cached {
          var v := cache.Fetch(CACHE_KEY);
          addresses := v.GetOr([]);
        } else {
          var ok := DiscoverDevices(response, hostOf);
          if !ok {
            return Failure(MissingHost);
          }
        }
      }
      var devices := DevicesOf(addresses);
      return Success(devices);
    }

    /** The loop of getDevices: one Device per address, in order. */
    static method DevicesOf(ips: seq<string>) returns (devices: seq<Device>)
      ensures devices == Devices(ips)
    {
      devices := [];
      for i := 0 to |ips|
        invariant devices == Devices(ips[..i])
      {
        devices := devices + [Device(ips[i])];
      }
      assert ips[..|ips|] == ips;
    }

    /** Forget the in-memory list; the cache keeps its entry. */
    method Clear()
      modifies this
      ensures addresses == [] && cache.store == old(cache.store)
    {
      addresses := [];
    }
  }

  /** After discovery has found at least one address, clearing the collection and asking for
      the devices again gives the very same list, reloaded from the cache without a second
      discovery. */
  method ReloadAfterClear(c: DeviceCollection, response: string, later: string,
                          hostOf: string -> Option<string>)
    returns (found: seq<string>, r: Result<seq<Device>>)
    requires c.addresses == [] && CACHE_KEY !in c.cache.store
    modifies c, c.cache
    ensures found == AppendAllNew([], Scan(ParseResponse(response), hostOf).hosts)
    ensures found != [] ==> r == Success(Devices(found)) && c.addresses == found
  {
    var ok := c.DiscoverDevices(response, hostOf);
    found := c.addresses;
    c.Clear();
    r := c.GetDevices(later, hostOf);
  }
}
