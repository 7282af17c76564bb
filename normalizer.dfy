/** The result normalizer: turns the backend's per-node payload for one
    check type into one record per location label. The five check types
    share the two-level shape test and differ in the metrics they read. */
module Normalizer {
  import opened JsonValue
  import opened NodeTable
  import opened PingStats

  datatype CheckKind = Ping | Http | Tcp | Udp | Dns

  /** The name the per-node error messages use for the check type. */
  function TypeName(kind: CheckKind): string
  {
    match kind
    case Ping => "ping"
    case Http => "HTTP"
    case Tcp => "TCP"
    case Udp => "UDP"
    case Dns => "DNS"
  }

  /** The first element of a node's payload must have MORE fields than this. */
  function ShortLimit(kind: CheckKind): nat
  {
    match kind
    case Ping => 1
    case Http => 3
    case Tcp => 1
    case Udp => 1
    case Dns => 0
  }

  /** The normalized record of one location. Times are in milliseconds; an
      absent ip is JNull, as Python's None. */
  datatype Record =
    | Failed(error: string)
    | PingRecord(success: bool, avgLatency: real, minLatency: real, maxLatency: real,
                 packetLoss: real, ip: Json)
    | HttpRecord(success: bool, statusCode: Json, statusMsg: Json, responseTime: real, ip: Json)
    | TcpRecord(success: bool, connectTime: real, ip: Json)
    | UdpRecord(success: bool, responseTime: real, ip: Json)
    | DnsRecord(success: bool, resolutionTime: real, addresses: seq<Json>)
  {
    /** The record's `success` entry; an error record has `success: False`. */
    predicate IsSuccess()
    {
      !Failed? && success
    }
  }

  /** Whether a metrics record has the form of the given check type. */
  predicate RecordOfKind(kind: CheckKind, r: Record)
  {
    match kind
    case Ping => r.PingRecord?
    case Http => r.HttpRecord?
    case Tcp => r.TcpRecord?
    case Udp => r.UdpRecord?
    case Dns => r.DnsRecord?
  }

  /** The result of the whole normalization: the API's own error passed on,
      or the records by label. */
  datatype Normalized = TopError(error: Json) | Regions(records: map<string, Record>)

  /** The outcome of the two-level shape test on one node's payload. */
  datatype Shape = NoData | Invalid | Valid(first: seq<Json>)

  /** The payload must be a non-empty list (else "No data"), and its first
      element a list longer than the check type's limit (else "Invalid"). */
  function ShapeOf(kind: CheckKind, v: Json): (sh: Shape)
    ensures sh == NoData <==> !(v.JList? && |v.items| > 0)
    ensures sh == Invalid <==>
      v.JList? && |v.items| > 0 && !(v.items[0].JList? && |v.items[0].items| > ShortLimit(kind))
    ensures sh.Valid? ==> sh.first == v.items[0].items && |sh.first| > ShortLimit(kind)
  {
    if Truthy(v) && v.JList? && |v.items| > 0 then
      var first := v.items[0];
      if first.JList? && |first.items| > ShortLimit(kind) then Valid(first.items) else Invalid
    else
      NoData
  }

  /** Every DNS record is a list. */
  predicate AllLists(records: seq<Json>)
  {
    forall i :: 0 <= i < |records| ==> records[i].JList?
  }

  /** Every DNS record is a list, and the first one starts with a time in
      seconds or with a falsy value (null, 0, "", [], {}), which reads as 0. */
  predicate DnsReadable(records: seq<Json>)
  {
    && AllLists(records)
    && |records| > 0 && |records[0].items| > 0
    && (Truthy(records[0].items[0]) ==> records[0].items[0].JNum?)
  }

  /** A payload the client reads without raising: only a valid shape is read
      further, and then the fields it multiplies or indexes must be there. */
  predicate Parsable(kind: CheckKind, v: Json)
  {
    match ShapeOf(kind, v)
    case Valid(first) =>
      (match kind
       case Ping => ReadableAttempts(first)
       case Http => first[1].JNum?
       case Tcp => first[1].JNum?
       case Udp => first[1].JNum?
       case Dns => DnsReadable(first))
    case _ => true
  }

  /** The ping record: success when some attempt is "OK", latencies over
      the "OK" attempts only, loss over all attempts. */
  function PingRecordOf(attempts: seq<Json>): (r: Record)
    requires |attempts| > 1 && ReadableAttempts(attempts)
    ensures r.PingRecord?
    ensures r.success <==> Rtts(attempts) != []
  {
    var successful := OkCount(attempts);
    var total := |attempts|;
    var rtts := Rtts(attempts);
    PingRecord(
      successful > 0,
      if rtts != [] then Mean(rtts) else 0.0,
      if rtts != [] then Min(rtts) else 0.0,
      if rtts != [] then Max(rtts) else 0.0,
      LossPercent(total, successful),
      if |attempts[0].items| > 2 then attempts[0].items[2] else JNull)
  }

  /** `(total - ok) / total * 100 if total > 0 else 100`. */
  function LossPercent(total: nat, ok: nat): real
  {
    if total > 0 then (total - ok) as real / total as real * 100.0 else 100.0
  }

  /** `[ok, seconds, status message, status code, ip]`. */
  function HttpRecordOf(f: seq<Json>): (r: Record)
    requires |f| > 3 && f[1].JNum?
    ensures r.HttpRecord? && r.responseTime / 1000.0 == f[1].n
  {
    HttpRecord(f[0] == JNum(1.0), f[3], f[2], f[1].n * 1000.0, if |f| > 4 then f[4] else JNull)
  }

  /** `[ok, seconds, ip]`. */
  function TcpRecordOf(f: seq<Json>): (r: Record)
    requires |f| > 1 && f[1].JNum?
    ensures r.TcpRecord? && r.connectTime / 1000.0 == f[1].n
  {
    TcpRecord(f[0] == JNum(1.0), f[1].n * 1000.0, if |f| > 2 then f[2] else JNull)
  }

  /** `[ok, seconds, ip]`. */
  function UdpRecordOf(f: seq<Json>): (r: Record)
    requires |f| > 1 && f[1].JNum?
    ensures r.UdpRecord? && r.responseTime / 1000.0 == f[1].n
  {
    UdpRecord(f[0] == JNum(1.0), f[1].n * 1000.0, if |f| > 2 then f[2] else JNull)
  }

  /** The second field of every DNS record that has one, in record order. */
  function Addresses(records: seq<Json>): (addrs: seq<Json>)
    requires AllLists(records)
    ensures |addrs| <= |records|
  {
    if records == [] then []
    else (if |records[0].items| > 1 then [records[0].items[1]] else []) + Addresses(records[1..])
  }

  /** The DNS record: always a success once the shape is valid; the time is
      the first record's first field, when truthy, in milliseconds. */
  function DnsRecordOf(records: seq<Json>): (r: Record)
    requires DnsReadable(records)
    ensures r.DnsRecord? && r.success && |r.addresses| <= |records|
  {
    var t := records[0].items[0];
    DnsRecord(true, if Truthy(t) then t.n * 1000.0 else 0.0, Addresses(records))
  }

  /** The record of one known node's payload. */
  function Entry(kind: CheckKind, v: Json): (r: Record)
    requires Parsable(kind, v)
    ensures r.Failed? <==> !ShapeOf(kind, v).Valid?
    ensures !r.Failed? ==> RecordOfKind(kind, r)
  {
    match ShapeOf(kind, v)
    case NoData => Failed("No " + TypeName(kind) + " data")
    case Invalid => Failed("Invalid " + TypeName(kind) + " response")
    case Valid(first) =>
      match kind
      case Ping => PingRecordOf(first)
      case Http => HttpRecordOf(first)
      case Tcp => TcpRecordOf(first)
      case Udp => UdpRecordOf(first)
      case Dns => DnsRecordOf(first)
  }

  /** Every payload of a known node can be read. Payloads of unknown nodes
      are never looked at. */
  predicate KnownParsable(kind: CheckKind, details: map<string, NodeInfo>, api: Dict)
  {
    forall i :: 0 <= i < |api| && api[i].0 in details ==> Parsable(kind, api[i].1)
  }

  /** What the normalizer reads: an API result with an 'error' entry is
      passed on unread, any other must have readable known-node payloads. */
  predicate Normalizable(kind: CheckKind, details: map<string, NodeInfo>, api: Dict)
  {
    HasKey(api, "error") || KnownParsable(kind, details, api)
  }

  /** The records after visiting the entries of `api` in order: each known
      node writes its record under its label, replacing what was there. */
  function Collect(kind: CheckKind, details: map<string, NodeInfo>, api: Dict): (res: map<string, Record>)
    requires KnownParsable(kind, details, api)
    ensures |res| <= |api|
    decreases |api|
  {
    if api == [] then map[]
    else
      var n := |api| - 1;
      FrontParsable(kind, details, api);
      var prev := Collect(kind, details, api[..n]);
      var node := api[n].0;
      if node in details then prev[Label(details[node]) := Entry(kind, api[n].1)] else prev
  }

  /** The normalizer's answer for an API result: its 'error' entry passed on
      as is, or the collected records. */
  function NormalizeSpec(kind: CheckKind, details: map<string, NodeInfo>, api: Dict): Normalized
    requires Normalizable(kind, details, api)
  {
    if HasKey(api, "error") then TopError(Lookup(api, "error"))
    else Regions(Collect(kind, details, api))
  }

  /** The loop shared by the five check methods of the tester: pass an
      'error' result on, else fill the records node by node. */
  method Normalize(kind: CheckKind, details: map<string, NodeInfo>, api: Dict) returns (out: Normalized)
    requires Normalizable(kind, details, api)
    ensures out == NormalizeSpec(kind, details, api)
  {
    if HasKey(api, "error") {
      return TopError(Lookup(api, "error"));
    }
    var results: map<string, Record> := map[];
    for i := 0 to |api|
      invariant results == Collect(kind, details, api[..i])
    {
      var node := api[i].0;
      if node in details {
        var region := Label(details[node]);
        results := results[region := Entry(kind, api[i].1)];
      }
      assert api[..i + 1][..i] == api[..i];
    }
    assert api[..|api|] == api;
    return Regions(results);
  }

  // ---------------------------------------------------------------------
  // Properties of the normalizer

  /** The label of the node of entry i, for a known node. */
  function LabelAt(details: map<string, NodeInfo>, api: Dict, i: nat): string
    requires i < |api| && api[i].0 in details
  {
    Label(details[api[i].0])
  }

  /** Entry j is the last known node in `api` with its label. */
  predicate LastWithLabel(details: map<string, NodeInfo>, api: Dict, j: nat)
    requires j < |api| && api[j].0 in details
  {
    forall k :: j < k < |api| && api[k].0 in details ==> LabelAt(details, api, k) != LabelAt(details, api, j)
  }

  /** The labels of the known nodes among the entries of `api`. */
  function KnownLabels(details: map<string, NodeInfo>, api: Dict): set<string>
  {
    set i | 0 <= i < |api| && api[i].0 in details :: LabelAt(details, api, i)
  }

  /** Dropping the last entry keeps the entries the normalizer can read. */
  lemma FrontParsable(kind: CheckKind, details: map<string, NodeInfo>, api: Dict)
    requires api != [] && KnownParsable(kind, details, api)
    ensures KnownParsable(kind, details, api[..|api| - 1])
  {
    var front := api[..|api| - 1];
    forall i | 0 <= i < |front| && front[i].0 in details ensures Parsable(kind, front[i].1) {
      assert front[i] == api[i];
    }
  }

  /** The last entry adds its label, if its node is known, to those before it. */
  lemma KnownLabelsSnoc(details: map<string, NodeInfo>, api: Dict)
    requires api != []
    ensures var n := |api| - 1;
      KnownLabels(details, api) ==
        KnownLabels(details, api[..n]) + (if api[n].0 in details then {LabelAt(details, api, n)} else {})
  {
    var n := |api| - 1;
    var front := api[..n];
    var extra: set<string> := if api[n].0 in details then {LabelAt(details, api, n)} else {};
    forall l | l in KnownLabels(details, api) ensures l in KnownLabels(details, front) + extra {
      var i :| 0 <= i < |api| && api[i].0 in details && l == LabelAt(details, api, i);
      if i < n {
        assert front[i] == api[i];
        assert l == LabelAt(details, front, i);
      }
    }
    forall l | l in KnownLabels(details, front) ensures l in KnownLabels(details, api) {
      var i :| 0 <= i < |front| && front[i].0 in details && l == LabelAt(details, front, i);
      assert front[i] == api[i];
      assert l == LabelAt(details, api, i);
    }
  }

  /** The keys are exactly the labels of the known nodes: unknown node ids
      contribute nothing. */
  lemma {:induction false} CollectKeys(kind: CheckKind, details: map<string, NodeInfo>, api: Dict)
    requires KnownParsable(kind, details, api)
    ensures Collect(kind, details, api).Keys == KnownLabels(details, api)
  {
    if api != [] {
      var n := |api| - 1;
      FrontParsable(kind, details, api);
      var prev := Collect(kind, details, api[..n]);
      CollectKeys(kind, details, api[..n]);
      KnownLabelsSnoc(details, api);
      if api[n].0 in details {
        assert Collect(kind, details, api) == prev[LabelAt(details, api, n) := Entry(kind, api[n].1)];
      } else {
        assert Collect(kind, details, api) == prev;
      }
    }
  }

  /** Every record is that of a known node, filed under that node's label. */
  lemma {:induction false} CollectProvenance(kind: CheckKind, details: map<string, NodeInfo>, api: Dict, l: string)
    requires KnownParsable(kind, details, api)
    requires l in Collect(kind, details, api)
    ensures exists i :: (0 <= i < |api| && api[i].0 in details && LabelAt(details, api, i) == l
      && Collect(kind, details, api)[l] == Entry(kind, api[i].1))
  {
    var n := |api| - 1;
    var front := api[..n];
    FrontParsable(kind, details, api);
    var res := Collect(kind, details, api);
    if api[n].0 in details && l == LabelAt(details, api, n) {
      assert res[l] == Entry(kind, api[n].1);
    } else {
      assert l in Collect(kind, details, front) && res[l] == Collect(kind, details, front)[l];
      CollectProvenance(kind, details, front, l);
      var i :| 0 <= i < |front| && front[i].0 in details && LabelAt(details, front, i) == l
        && Collect(kind, details, front)[l] == Entry(kind, front[i].1);
      assert front[i] == api[i];
      assert api[i].0 in details && LabelAt(details, api, i) == l && res[l] == Entry(kind, api[i].1);
    }
  }

  /** Among known nodes that share a label, the one visited last decides the
      record stored under it. */
  lemma {:induction false} CollectLastWins(kind: CheckKind, details: map<string, NodeInfo>, api: Dict, j: nat)
    requires KnownParsable(kind, details, api)
    requires j < |api| && api[j].0 in details && LastWithLabel(details, api, j)
    ensures LabelAt(details, api, j) in Collect(kind, details, api)
    ensures Collect(kind, details, api)[LabelAt(details, api, j)] == Entry(kind, api[j].1)
  {
    var n := |api| - 1;
    var front := api[..n];
    FrontParsable(kind, details, api);
    if j < n {
      assert front[j] == api[j];
      assert LastWithLabel(details, front, j) by {
        forall k | j < k < |front| && front[k].0 in details
          ensures LabelAt(details, front, k) != LabelAt(details, front, j)
        {
          assert front[k] == api[k];
          assert LabelAt(details, api, k) != LabelAt(details, api, j);
        }
      }
      CollectLastWins(kind, details, front, j);
      if api[n].0 in details {
        assert LabelAt(details, api, n) != LabelAt(details, api, j);
      }
    }
  }

  /** An API result carrying an 'error' entry, such as the client's own
      error dict, is passed on whole and yields no records. */
  lemma ErrorPassedOn(kind: CheckKind, details: map<string, NodeInfo>, msg: string)
    ensures Normalizable(kind, details, ErrorDict(msg))
    ensures NormalizeSpec(kind, details, ErrorDict(msg)) == TopError(JStr(msg))
  {
  }

  /** The two error records: no usable payload at all, or a first element
      that is not a list or is too short; anything else gives the metrics
      record of the check type. */
  lemma EntryShapeErrors(kind: CheckKind, v: Json)
    requires Parsable(kind, v)
    ensures Entry(kind, v) == Failed("No " + TypeName(kind) + " data") <==> !(v.JList? && |v.items| > 0)
    ensures Entry(kind, v) == Failed("Invalid " + TypeName(kind) + " response") <==>
      v.JList? && |v.items| > 0 && !(v.items[0].JList? && |v.items[0].items| > ShortLimit(kind))
    ensures ShapeOf(kind, v).Valid? ==> RecordOfKind(kind, Entry(kind, v))
    ensures kind == Ping && ShapeOf(kind, v).Valid? ==> Entry(kind, v) == PingRecordOf(ShapeOf(kind, v).first)
  {
    var no := "No " + TypeName(kind) + " data";
    var invalid := "Invalid " + TypeName(kind) + " response";
    assert no[0] != invalid[0];
  }

  /** Loss as a percentage of `total` attempts of which `ok` succeeded. */
  lemma LossBounds(ok: nat, total: nat)
    requires 0 < total && ok <= total
    ensures var loss := LossPercent(total, ok);
      && 0.0 <= loss <= 100.0
      && (loss == 0.0 <==> ok == total)
      && (loss == 100.0 <==> ok == 0)
      && loss == (total - ok) as real / total as real * 100.0
  {
    var t := total as real;
    var q := (total - ok) as real / t;
    assert q * t == (total - ok) as real;
  }

  /** Ping success and loss: success iff some attempt is "OK"; the loss is a
      percentage, 0 iff every attempt is "OK", 100 iff none is; with at
      least two attempts the `else 100` branch is never taken. */
  lemma PingSuccessAndLoss(attempts: seq<Json>)
    requires |attempts| > 1 && ReadableAttempts(attempts)
    ensures var r := PingRecordOf(attempts);
      && (r.success <==> exists i :: 0 <= i < |attempts| && IsOk(attempts[i]))
      && 0.0 <= r.packetLoss <= 100.0
      && (r.packetLoss == 0.0 <==> forall i :: 0 <= i < |attempts| ==> IsOk(attempts[i]))
      && (r.packetLoss == 100.0 <==> forall i :: 0 <= i < |attempts| ==> !IsOk(attempts[i]))
      && r.packetLoss == LossPercent(|attempts|, OkCount(attempts))
  {
    var ok := OkCount(attempts);
    var r := PingRecordOf(attempts);
    assert r.success == (ok > 0) && r.packetLoss == LossPercent(|attempts|, ok);
    OkCountExtremes(attempts);
    LossBounds(ok, |attempts|);
  }

  /** Ping latencies: with an "OK" attempt, min <= avg <= max and min and max
      are times of "OK" attempts; with none, all three are 0. The ip is the
      first attempt's third field, whatever its status. */
  lemma PingLatencies(attempts: seq<Json>)
    requires |attempts| > 1 && ReadableAttempts(attempts)
    ensures var r := PingRecordOf(attempts);
      && (OkCount(attempts) > 0 ==>
            && r.minLatency <= r.avgLatency <= r.maxLatency
            && (exists i :: 0 <= i < |attempts| && IsOk(attempts[i]) && r.minLatency == RttMs(attempts[i]))
            && (exists i :: 0 <= i < |attempts| && IsOk(attempts[i]) && r.maxLatency == RttMs(attempts[i]))
            && (forall i :: 0 <= i < |attempts| && IsOk(attempts[i]) ==>
                  r.minLatency <= RttMs(attempts[i]) <= r.maxLatency))
      && (OkCount(attempts) == 0 ==> r.avgLatency == 0.0 && r.minLatency == 0.0 && r.maxLatency == 0.0)
      && r.ip == (if |attempts[0].items| > 2 then attempts[0].items[2] else JNull)
  {
    var rtts := Rtts(attempts);
    if rtts != [] {
      MeanBetween(rtts);
      MinIsLeast(rtts);
      MaxIsGreatest(rtts);
      RttsFromOk(attempts);
      var r := PingRecordOf(attempts);
      forall i | 0 <= i < |attempts| && IsOk(attempts[i])
        ensures r.minLatency <= RttMs(attempts[i]) <= r.maxLatency
      {
        var x := RttMs(attempts[i]);
        assert x in rtts;
        var k :| 0 <= k < |rtts| && rtts[k] == x;
      }
      var kmin :| 0 <= kmin < |rtts| && rtts[kmin] == Min(rtts);
      var kmax :| 0 <= kmax < |rtts| && rtts[kmax] == Max(rtts);
      assert exists i :: 0 <= i < |attempts| && IsOk(attempts[i]) && rtts[kmin] == RttMs(attempts[i]);
      assert exists i :: 0 <= i < |attempts| && IsOk(attempts[i]) && rtts[kmax] == RttMs(attempts[i]);
    }
  }

  /** The time of an HTTP, TCP or UDP record in milliseconds. */
  function TimeMs(r: Record): real
    requires r.HttpRecord? || r.TcpRecord? || r.UdpRecord?
  {
    match r
    case HttpRecord(_, _, _, t, _) => t
    case TcpRecord(_, t, _) => t
    case UdpRecord(_, t, _) => t
  }

  /** HTTP, TCP and UDP: success iff the first field is 1; the time read back
      in seconds is the reported second field; the ip is the field after the
      fixed ones when present, else null. */
  lemma TimedRecordFacts(kind: CheckKind, v: Json)
    requires kind == Http || kind == Tcp || kind == Udp
    requires Parsable(kind, v) && ShapeOf(kind, v).Valid?
    ensures var f := ShapeOf(kind, v).first;
      var r := Entry(kind, v);
      var ipAt := if kind == Http then 4 else 2;
      && RecordOfKind(kind, r)
      && (r.IsSuccess() <==> f[0] == JNum(1.0))
      && TimeMs(r) / 1000.0 == f[1].n
      && r.ip == (if |f| > ipAt then f[ipAt] else JNull)
      && (kind == Http ==> r.statusMsg == f[2] && r.statusCode == f[3])
  {
  }

  lemma AllListsAppend(a: seq<Json>, b: seq<Json>)
    requires AllLists(a) && AllLists(b)
    ensures AllLists(a + b)
  {
    forall i | 0 <= i < |a + b| ensures (a + b)[i].JList? {
      if i >= |a| {
        assert (a + b)[i] == b[i - |a|];
      }
    }
  }

  /** Addresses are gathered record by record, so order is preserved. */
  lemma {:induction false} AddressesAppend(a: seq<Json>, b: seq<Json>)
    requires AllLists(a) && AllLists(b)
    ensures AllLists(a + b)
    ensures Addresses(a + b) == Addresses(a) + Addresses(b)
  {
    AllListsAppend(a, b);
    if a == [] {
      assert a + b == b;
    } else {
      var rest := a[1..];
      AllListsAppend(rest, b);
      AddressesAppend(rest, b);
      assert (a + b)[0] == a[0] && (a + b)[1..] == rest + b;
      var head := if |a[0].items| > 1 then [a[0].items[1]] else [];
      assert Addresses(a + b) == head + Addresses(rest + b);
      assert Addresses(a) == head + Addresses(rest);
    }
  }

  /** Every address is the second field of a record with at least two
      fields, and every such record gives its second field. */
  lemma {:induction false} AddressesFromRecords(records: seq<Json>)
    requires AllLists(records)
    ensures forall j :: 0 <= j < |Addresses(records)| ==>
      exists i :: 0 <= i < |records| && |records[i].items| > 1 && Addresses(records)[j] == records[i].items[1]
    ensures forall i :: 0 <= i < |records| && |records[i].items| > 1 ==> records[i].items[1] in Addresses(records)
  {
    if records != [] {
      var rest := records[1..];
      AddressesFromRecords(rest);
      var head := if |records[0].items| > 1 then [records[0].items[1]] else [];
      assert Addresses(records) == head + Addresses(rest);
      forall j | 0 <= j < |Addresses(records)|
        ensures exists i :: 0 <= i < |records| && |records[i].items| > 1 && Addresses(records)[j] == records[i].items[1]
      {
        if j < |head| {
          assert 0 <= 0 < |records| && |records[0].items| > 1 && Addresses(records)[j] == records[0].items[1];
        } else {
          var k := j - |head|;
          assert 0 <= k < |Addresses(rest)| && Addresses(records)[j] == Addresses(rest)[k];
          var i :| 0 <= i < |rest| && |rest[i].items| > 1 && Addresses(rest)[k] == rest[i].items[1];
          assert records[i + 1] == rest[i];
          assert 0 <= i + 1 < |records| && |records[i + 1].items| > 1 && Addresses(records)[j] == records[i + 1].items[1];
        }
      }
      forall i | 0 <= i < |records| && |records[i].items| > 1
        ensures records[i].items[1] in Addresses(records)
      {
        if i > 0 {
          assert records[i] == rest[i - 1];
        }
      }
    } else {
      assert |Addresses(records)| == 0;
    }
  }

  /** DNS: a valid shape is always a success; the time is 0 when the first
      record's first field is falsy (null, 0, "", [] or {}) and that field
      in milliseconds otherwise; there are no more addresses than records. */
  lemma DnsFacts(v: Json)
    requires Parsable(Dns, v) && ShapeOf(Dns, v).Valid?
    ensures var records := ShapeOf(Dns, v).first;
      var r := Entry(Dns, v);
      var t := records[0].items[0];
      && r.DnsRecord? && r.IsSuccess()
      && (!Truthy(t) ==> r.resolutionTime == 0.0)
      && (t.JNum? ==> r.resolutionTime == t.n * 1000.0)
      && |r.addresses| <= |records|
      && r.addresses == Addresses(records)
  {
  }

  // ---------------------------------------------------------------------
  // Worked examples

  /** Two known nodes with the same label, visited in order: one location,
      holding the later node's record. */
  lemma SameLabelCollapse(kind: CheckKind, details: map<string, NodeInfo>, n1: string, a: Json, n2: string, b: Json)
    requires n1 in details && n2 in details && Label(details[n1]) == Label(details[n2])
    requires Parsable(kind, a) && Parsable(kind, b)
    ensures KnownParsable(kind, details, [(n1, a), (n2, b)])
    ensures Collect(kind, details, [(n1, a), (n2, b)]) == map[Label(details[n2]) := Entry(kind, b)]
  {
    var l := Label(details[n2]);
    var one: Dict := [(n1, a)];
    CollectOne(kind, details, n1, a);
    CollectSnoc(kind, details, one, n2, b);
    assert one + [(n2, b)] == [(n1, a), (n2, b)];
  }

  /** A single known node gives one location. */
  lemma CollectOne(kind: CheckKind, details: map<string, NodeInfo>, node: string, v: Json)
    requires node in details && Parsable(kind, v)
    ensures KnownParsable(kind, details, [(node, v)])
    ensures Collect(kind, details, [(node, v)]) == map[Label(details[node]) := Entry(kind, v)]
  {
    var empty: Dict := [];
    CollectSnoc(kind, details, empty, node, v);
    assert empty + [(node, v)] == [(node, v)];
  }

  /** One more entry: a known node writes its record under its label. */
  lemma CollectSnoc(kind: CheckKind, details: map<string, NodeInfo>, api: Dict, node: string, v: Json)
    requires KnownParsable(kind, details, api) && (node in details ==> Parsable(kind, v))
    ensures KnownParsable(kind, details, api + [(node, v)])
    ensures Collect(kind, details, api + [(node, v)]) ==
      if node in details then Collect(kind, details, api)[Label(details[node]) := Entry(kind, v)]
      else Collect(kind, details, api)
  {
    var api' := api + [(node, v)];
    assert forall i :: 0 <= i < |api| ==> api'[i] == api[i];
    assert api'[..|api|] == api;
  }

  /** In the shipped table ru1 and ru2 are both "Russia (Moscow)": their two
      results collapse into one location and the later one's record stays. */
  lemma MoscowNodesCollapse(kind: CheckKind, a: Json, b: Json)
    requires Parsable(kind, a) && Parsable(kind, b)
    ensures var api := [("ru1.node.check-host.net", a), ("ru2.node.check-host.net", b)];
      && KnownParsable(kind, NodeDetails, api)
      && Collect(kind, NodeDetails, api) == map["Russia (Moscow)" := Entry(kind, b)]
  {
    assert NodeDetails["ru1.node.check-host.net"] == NodeInfo("Russia", "Moscow", "EU-EAST");
    assert NodeDetails["ru2.node.check-host.net"] == NodeInfo("Russia", "Moscow", "EU-EAST");
    assert Label(NodeInfo("Russia", "Moscow", "EU-EAST")) == "Russia (Moscow)";
    SameLabelCollapse(kind, NodeDetails, "ru1.node.check-host.net", a, "ru2.node.check-host.net", b);
  }

  /** Three attempts, two "OK" at 0.1 s and 0.3 s. */
  lemma PingExample()
    ensures var v := JList([JList([
        JList([JStr("OK"), JNum(0.1), JStr("1.2.3.4")]),
        JList([JStr("TIMEOUT")]),
        JList([JStr("OK"), JNum(0.3), JStr("1.2.3.4")])])]);
      && Parsable(Ping, v)
      && Entry(Ping, v) == PingRecord(true, 200.0, 100.0, 300.0, 100.0 / 3.0, JStr("1.2.3.4"))
  {
  }

  lemma HttpExample()
    ensures var v := JList([JList([JNum(1.0), JNum(0.25), JStr("OK"), JNum(200.0), JStr("5.6.7.8")])]);
      && Parsable(Http, v)
      && Entry(Http, v) == HttpRecord(true, JNum(200.0), JStr("OK"), 250.0, JStr("5.6.7.8"))
  {
  }

  lemma DnsExample()
    ensures var v := JList([JList([JList([JNum(0.05), JStr("9.9.9.9")]), JList([JNull, JStr("9.9.9.10")])])]);
      && Parsable(Dns, v)
      && Entry(Dns, v) == DnsRecord(true, 50.0, [JStr("9.9.9.9"), JStr("9.9.9.10")])
  {
  }
}
