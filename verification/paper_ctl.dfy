/**
 * Start/stop planning of bin/paper_ctl.rb: the mcount rate, the
 * X-engine status keys, and the broadcast message that `start` and `stop`
 * publish, computed from the status fields already fetched from Redis.
 */
module PaperCtl {
  import opened Wrappers
  import opened Decimal

  const SamplesPerSecond: nat := 200000000
  const SamplesPerSpectrum: nat := 2048
  /** `mcnts_per_second` is always called with its default argument. */
  const DefaultSpectraPerMcnt: nat := 8

  /**
   * 200e6 / (2048 * spectraPerMcnt) truncated by `to_i`. For the divisors of
   * 1024 (powers of two) the floating-point product is exact, so this is
   * integer division; dividing in two steps gives the same floor.
   */
  function RawMcntsPerSecond(spectraPerMcnt: nat): nat
    requires spectraPerMcnt > 0
  {
    SamplesPerSecond / SamplesPerSpectrum / spectraPerMcnt
  }

  /** Mcount ticks per second, rounded up to a whole block of 2048. */
  function McntsPerSecond(spectraPerMcnt: nat): (r: nat)
    requires spectraPerMcnt > 0 && 1024 % spectraPerMcnt == 0
    ensures r % 2048 == 0
    ensures RawMcntsPerSecond(spectraPerMcnt) <= r < RawMcntsPerSecond(spectraPerMcnt) + 2048
  {
    (RawMcntsPerSecond(spectraPerMcnt) + 2047) / 2048 * 2048
  }

  lemma DefaultMcntsPerSecond()
    ensures McntsPerSecond(DefaultSpectraPerMcnt) == 12288
  {
  }

  /** `intdelay_mcnts`: the delay in ticks, rounded up once more to a block of 2048 (Ruby's `/` floors). */
  function DelayMcnts(intdelay: int, mcntsPerSecond: int): (r: int)
    ensures r % 2048 == 0
    ensures intdelay * mcntsPerSecond <= r < intdelay * mcntsPerSecond + 2048
  {
    (intdelay * mcntsPerSecond + 2047) / 2048 * 2048
  }

  /** The second round-up changes nothing: the rate is already a multiple of 2048. */
  lemma DelayMcntsExact(intdelay: int, mcntsPerSecond: int)
    requires mcntsPerSecond % 2048 == 0
    ensures DelayMcnts(intdelay, mcntsPerSecond) == intdelay * mcntsPerSecond
  {
    var q := mcntsPerSecond / 2048;
    assert mcntsPerSecond == 2048 * q;
    assert intdelay * mcntsPerSecond == 2048 * (intdelay * q);
    assert (2048 * (intdelay * q) + 2047) / 2048 == intdelay * q;
  }

  /** A Hashpipe status key: one X-engine instance on one X host. */
  datatype InstanceKey = InstanceKey(host: string, instance: int)

  /** The X host name "px#{x}". */
  function XHost(x: int): string {
    "px" + IntToString(x)
  }

  /** `(lo...hi).to_a`: the integers from lo up to but excluding hi. */
  function Range(lo: int, hi: int): (r: seq<int>)
    ensures |r| == if lo < hi then hi - lo else 0
    ensures forall k :: 0 <= k < |r| ==> r[k] == lo + k
    decreases hi - lo
  {
    if lo >= hi then [] else [lo] + Range(lo + 1, hi)
  }

  /** `xs.product(ys)`: all pairs, the first component varying slowest. */
  function Product<A, B>(xs: seq<A>, ys: seq<B>): seq<(A, B)> {
    if xs == [] then [] else seq(|ys|, j requires 0 <= j < |ys| => (xs[0], ys[j])) + Product(xs[1..], ys)
  }

  lemma {:induction false} ProductLength<A, B>(xs: seq<A>, ys: seq<B>)
    ensures |Product(xs, ys)| == |xs| * |ys|
    decreases |xs|
  {
    if xs != [] {
      ProductLength(xs[1..], ys);
      assert |xs| * |ys| == |ys| + |xs[1..]| * |ys|;
    }
  }

  lemma {:induction false} ProductEmpty<A, B>(xs: seq<A>, ys: seq<B>)
    requires ys == []
    ensures Product(xs, ys) == []
    decreases |xs|
  {
    if xs != [] {
      ProductEmpty(xs[1..], ys);
    }
  }

  /** Entry k of the product pairs element k / |ys| of xs with element k % |ys| of ys. */
  lemma {:induction false} ProductAt<A, B>(xs: seq<A>, ys: seq<B>, k: int)
    requires |ys| > 0 && 0 <= k < |Product(xs, ys)|
    ensures k / |ys| < |xs| && Product(xs, ys)[k] == (xs[k / |ys|], ys[k % |ys|])
    decreases |xs|
  {
    var m := |ys|;
    if k >= m {
      ProductAt(xs[1..], ys, k - m);
      DivStep(k, m);
    } else {
      assert k / m == 0 && k % m == k;
    }
  }

  lemma DivStep(k: int, m: int)
    requires 0 < m <= k
    ensures (k - m) / m == k / m - 1 && (k - m) % m == k % m
  {
    var q, r := k / m, k % m;
    var q2, r2 := (k - m) / m, (k - m) % m;
    assert k == m * q + r && 0 <= r < m;
    assert k - m == m * q2 + r2 && 0 <= r2 < m;
    var d := q2 - q + 1;
    assert m * d == r - r2;
    assert d == 0;
  }

  /** STATUS_KEYS: hosts px1..pxN crossed with instances 0..M-1. */
  function StatusKeys(numXbox: int, numInst: int): seq<InstanceKey> {
    var pairs := Product(Range(1, numXbox + 1), Range(0, numInst));
    seq(|pairs|, k requires 0 <= k < |pairs| => InstanceKey(XHost(pairs[k].0), pairs[k].1))
  }

  lemma StatusKeysLength(numXbox: nat, numInst: nat)
    ensures |StatusKeys(numXbox, numInst)| == numXbox * numInst
  {
    ProductLength(Range(1, numXbox + 1), Range(0, numInst));
  }

  /** Key k is instance k % num_inst of host px(k / num_inst + 1): the list is host-major. */
  lemma StatusKeyAt(numXbox: nat, numInst: nat, k: int)
    requires 0 <= k < |StatusKeys(numXbox, numInst)|
    ensures numInst > 0 && k / numInst < numXbox
    ensures StatusKeys(numXbox, numInst)[k] == InstanceKey(XHost(k / numInst + 1), k % numInst)
  {
    var xs, ys := Range(1, numXbox + 1), Range(0, numInst);
    if numInst == 0 {
      ProductEmpty(xs, ys);
      assert false;
    }
    var pairs := Product(xs, ys);
    ProductAt(xs, ys, k);
    assert pairs[k] == (k / numInst + 1, k % numInst);
  }

  /** The host number N of a host named "pxN" (0 for any other name). */
  function HostNumber(host: string): nat {
    if |host| >= 2 && host[..2] == "px" && AllDigits(host[2..]) then ParseNat(host[2..]) else 0
  }

  lemma HostNumberOfXHost(x: nat)
    ensures HostNumber(XHost(x)) == x
  {
    var h := XHost(x);
    assert h[..2] == "px" && h[2..] == NatToString(x);
    ParseNatToString(x);
  }

  /** Where a key sits in STATUS_KEYS, computed from the key alone. */
  function KeyIndex(key: InstanceKey, numInst: int): int {
    (HostNumber(key.host) - 1) * numInst + key.instance
  }

  lemma QuotientRemainder(k: int, n: int)
    requires k >= 0 && n > 0
    ensures k / n >= 0
    ensures (k / n + 1 - 1) * n + k % n == k
  {
  }

  /** Each key can be located from its own host and instance: STATUS_KEYS is indexed host-major. */
  lemma StatusKeyIndex(numXbox: nat, numInst: nat, k: int)
    requires 0 <= k < |StatusKeys(numXbox, numInst)|
    ensures KeyIndex(StatusKeys(numXbox, numInst)[k], numInst) == k
  {
    StatusKeyAt(numXbox, numInst, k);
    QuotientRemainder(k, numInst);
    var q, r := k / numInst, k % numInst;
    var key := StatusKeys(numXbox, numInst)[k];
    HostNumberOfXHost(q + 1);
    assert HostNumber(key.host) == q + 1 && key.instance == r;
  }

  /** No status key is listed twice. */
  lemma StatusKeysDistinct(numXbox: nat, numInst: nat, p: int, q: int)
    requires 0 <= p < q < |StatusKeys(numXbox, numInst)|
    ensures StatusKeys(numXbox, numInst)[p] != StatusKeys(numXbox, numInst)[q]
  {
    StatusKeyIndex(numXbox, numInst, p);
    StatusKeyIndex(numXbox, numInst, q);
  }

  /** What Redis holds: for each status key that exists, its hash of fields. */
  type Snapshot = map<InstanceKey, map<string, string>>

  /** `get_hashpipe_status_values`: HGET of one field from every key, nil where absent. */
  function Fetch(snapshot: Snapshot, keys: seq<InstanceKey>, field: string): (vals: seq<Option<string>>)
    ensures |vals| == |keys|
  {
    seq(|keys|, k requires 0 <= k < |keys| =>
      if keys[k] in snapshot && field in snapshot[keys[k]] then Some(snapshot[keys[k]][field]) else None)
  }

  /** How many of the values are present. */
  function CountPresent<T>(vals: seq<Option<T>>): (n: nat)
    ensures n <= |vals|
  {
    if vals == [] then 0 else (if vals[0].Some? then 1 else 0) + CountPresent(vals[1..])
  }

  /** Counting the present values before position k + 1 from the second value on. */
  lemma CountPresentPrefix<T>(vals: seq<Option<T>>, k: int)
    requires 1 <= k <= |vals|
    ensures CountPresent(vals[..k]) == (if vals[0].Some? then 1 else 0) + CountPresent(vals[1..][..k - 1])
  {
    assert vals[..k][1..] == vals[1..][..k - 1];
  }

  /**
   * Each present value at position k of vals sits in r at the number of
   * present values before k: r keeps the present values once each, in order.
   */
  predicate Placed(vals: seq<Option<string>>, r: seq<string>) {
    forall k :: 0 <= k < |vals| && vals[k].Some? ==>
      CountPresent(vals[..k]) < |r| && r[CountPresent(vals[..k])] == vals[k].value
  }

  /** Placing the first value in front of the placed rest places all of them. */
  lemma PlacedStep(vals: seq<Option<string>>, rest: seq<string>)
    requires |vals| >= 1 && |rest| == CountPresent(vals[1..]) && Placed(vals[1..], rest)
    ensures Placed(vals, if vals[0].Some? then [vals[0].value] + rest else rest)
  {
    var r := if vals[0].Some? then [vals[0].value] + rest else rest;
    forall k | 0 <= k < |vals| && vals[k].Some?
      ensures CountPresent(vals[..k]) < |r| && r[CountPresent(vals[..k])] == vals[k].value
    {
      if k == 0 {
        assert vals[..0] == [];
      } else {
        CountPresentPrefix(vals, k);
        assert vals[1..][k - 1] == vals[k];
      }
    }
  }

  /**
   * `compact!`: the present values, in order. The length is the number of
   * present values and each is placed after those before it (`Placed`), so the
   * result holds each present value once, in the order of the keys, and
   * nothing else.
   */
  function Compact(vals: seq<Option<string>>): (r: seq<string>)
    ensures |r| == CountPresent(vals)
    ensures Placed(vals, r)
    ensures |r| == |vals| <==> forall k :: 0 <= k < |vals| ==> vals[k].Some?
    ensures r == [] <==> forall k :: 0 <= k < |vals| ==> vals[k].None?
    ensures forall x :: x in r <==> Some(x) in vals
  {
    if vals == [] then []
    else
      var rest := Compact(vals[1..]);
      assert forall k :: 1 <= k < |vals| ==> vals[k] == vals[1..][k - 1];
      assert forall x :: Some(x) in vals <==> vals[0] == Some(x) || Some(x) in vals[1..];
      PlacedStep(vals, rest);
      if vals[0].Some? then [vals[0].value] + rest else rest
  }

  function SeqMin(s: seq<int>): (m: int)
    requires |s| > 0
    ensures m in s && forall x :: x in s ==> m <= x
  {
    if |s| == 1 then s[0]
    else
      var m := SeqMin(s[1..]);
      assert forall x :: x in s ==> x == s[0] || x in s[1..];
      if s[0] <= m then s[0] else m
  }

  function SeqMax(s: seq<int>): (m: int)
    requires |s| > 0
    ensures m in s && forall x :: x in s ==> x <= m
  {
    if |s| == 1 then s[0]
    else
      var m := SeqMax(s[1..]);
      assert forall x :: x in s ==> x == s[0] || x in s[1..];
      if s[0] >= m then s[0] else m
  }

  /** The GPUMCNT values that are present are plain decimal numbers. */
  predicate GpuMcntsDecimal(snapshot: Snapshot, keys: seq<InstanceKey>) {
    var vals := Fetch(snapshot, keys, "GPUMCNT");
    forall k :: 0 <= k < |vals| ==> vals[k].Some? ==> IsCanonical(vals[k].value)
  }

  /** `map! {|s| s.to_i(0)}` on decimal text. */
  function Counters(present: seq<string>): (c: seq<int>)
    requires forall k :: 0 <= k < |present| ==> IsCanonical(present[k])
    ensures |c| == |present| && forall k :: 0 <= k < |c| ==> IsCanonical(present[k]) && c[k] == ParseNat(present[k])
  {
    assert forall k :: 0 <= k < |present| ==> AllDigits(present[k]) by {
      forall k | 0 <= k < |present| ensures AllDigits(present[k]) {
        assert IsCanonical(present[k]);
      }
    }
    seq(|present|, k requires 0 <= k < |present| => ParseNat(present[k]) as int)
  }

  /** The text `start` publishes on the broadcast channel. */
  function StartMessage(intSync: int, intCount: int): string {
    Field("INTSYNC", IntToString(intSync)) + "\n" + Field("INTCOUNT", IntToString(intCount)) + "\n" +
    Field("INTSTAT", "start") + "\n" + Field("OUTDUMPS", "0")
  }

  /** One `KEY=VALUE` line of a broadcast. */
  function Field(key: string, value: string): string {
    key + "=" + value
  }

  const StopMessage: string := "INTSTAT=stop"

  /** The GPUMCNT counters that are present, converted to integers, in key order. */
  function PresentMcnts(snapshot: Snapshot, keys: seq<InstanceKey>): (m: seq<int>)
    requires GpuMcntsDecimal(snapshot, keys)
    ensures var vals := Fetch(snapshot, keys, "GPUMCNT");
      && |m| == |Compact(vals)|
      && (m == [] <==> forall k :: 0 <= k < |keys| ==> vals[k].None?)
      && (forall k :: 0 <= k < |keys| && vals[k].Some? ==> ParseNat(vals[k].value) in m)
      && (forall x :: x in m ==> exists k :: 0 <= k < |keys| && vals[k].Some? && ParseNat(vals[k].value) == x)
  {
    var vals := Fetch(snapshot, keys, "GPUMCNT");
    CompactCanonical(vals);
    var m := Counters(Compact(vals));
    CountersOfCompact(vals, Compact(vals));
    m
  }

  /** Dropping the nils from canonical values leaves canonical text. */
  lemma CompactCanonical(vals: seq<Option<string>>)
    requires forall k :: 0 <= k < |vals| ==> vals[k].Some? ==> IsCanonical(vals[k].value)
    ensures forall j :: 0 <= j < |Compact(vals)| ==> IsCanonical(Compact(vals)[j])
  {
    var present := Compact(vals);
    forall j | 0 <= j < |present| ensures IsCanonical(present[j]) {
      assert present[j] in present;
    }
  }

  /** The counters read from the present values are those of the keys that answered. */
  lemma CountersOfCompact(vals: seq<Option<string>>, present: seq<string>)
    requires forall k :: 0 <= k < |vals| ==> vals[k].Some? ==> IsCanonical(vals[k].value)
    requires present == Compact(vals) && forall j :: 0 <= j < |present| ==> IsCanonical(present[j])
    ensures var m := Counters(present);
      && (forall k :: 0 <= k < |vals| && vals[k].Some? ==> ParseNat(vals[k].value) in m)
      && (forall x :: x in m ==> exists k :: 0 <= k < |vals| && vals[k].Some? && ParseNat(vals[k].value) == x)
  {
    var m := Counters(present);
    forall k | 0 <= k < |vals| && vals[k].Some? ensures ParseNat(vals[k].value) in m {
      assert vals[k].value in present;
      var j :| 0 <= j < |present| && present[j] == vals[k].value;
      assert m[j] == ParseNat(vals[k].value);
    }
    forall x | x in m ensures exists k :: 0 <= k < |vals| && vals[k].Some? && ParseNat(vals[k].value) == x {
      var j :| 0 <= j < |m| && m[j] == x;
      assert Some(present[j]) in vals;
      var k :| 0 <= k < |vals| && vals[k] == Some(present[j]);
      assert vals[k].Some? && ParseNat(vals[k].value) == x;
    }
  }

  /** Everything `start` computes once some GPUMCNT is present. */
  datatype StartPlan = StartPlan(
    minMcnt: int, maxMcnt: int,
    missing: nat,          // > 0 exactly when the "missing GPUMCNT" warning is printed
    delayMcnts: int, intSync: int,
    message: string)

  datatype StartResult = NoGpuMcnt | PublishStart(plan: StartPlan)

  /** `start`: plan the synchronised start from the fetched GPUMCNT values. */
  function Start(snapshot: Snapshot, keys: seq<InstanceKey>, intdelay: int, intCount: int): (r: StartResult)
    requires GpuMcntsDecimal(snapshot, keys)
    ensures var m := PresentMcnts(snapshot, keys);
      && (r.NoGpuMcnt? <==> m == [])
      && (r.PublishStart? ==>
          var p := r.plan;
          && p.missing == |keys| - |m|
          && p.minMcnt in m && p.maxMcnt in m
          && (forall x :: x in m ==> p.minMcnt <= x <= p.maxMcnt)
          && p.delayMcnts == intdelay * 12288
          && p.intSync == p.maxMcnt + intdelay * 12288
          && (intdelay >= 0 ==> forall x :: x in m ==> x <= p.intSync)
          && p.message == StartMessage(p.intSync, intCount))
  {
    var m := PresentMcnts(snapshot, keys);
    if m == [] then NoGpuMcnt
    else
      var lo, hi := SeqMin(m), SeqMax(m);
      var rate := McntsPerSecond(DefaultSpectraPerMcnt);
      DefaultMcntsPerSecond();
      DelayMcntsExact(intdelay, rate);
      var delay := DelayMcnts(intdelay, rate);
      var intSync := hi + delay;
      PublishStart(StartPlan(lo, hi, |keys| - |m|, delay, intSync, StartMessage(intSync, intCount)))
  }

  /** The warning is printed exactly when some status key lacks a GPUMCNT. */
  lemma StartWarning(snapshot: Snapshot, keys: seq<InstanceKey>, intdelay: int, intCount: int)
    requires GpuMcntsDecimal(snapshot, keys)
    requires Start(snapshot, keys, intdelay, intCount).PublishStart?
    ensures var vals := Fetch(snapshot, keys, "GPUMCNT");
      Start(snapshot, keys, intdelay, intCount).plan.missing > 0 <==>
        exists k :: 0 <= k < |keys| && vals[k].None?
  {
    var vals := Fetch(snapshot, keys, "GPUMCNT");
    var p := Start(snapshot, keys, intdelay, intCount).plan;
    assert p.missing == |vals| - |Compact(vals)|;
    MissingIffNone(vals);
  }

  /** Some value is dropped exactly when some value is nil. */
  lemma MissingIffNone(vals: seq<Option<string>>)
    ensures |Compact(vals)| < |vals| <==> exists k :: 0 <= k < |vals| && vals[k].None?
  {
  }

  datatype StopResult = NothingToStop | PublishStop(missing: nat, message: string)

  /** `stop`: publish INTSTAT=stop when some instance reports an INTSTAT at all. */
  function Stop(snapshot: Snapshot, keys: seq<InstanceKey>): (r: StopResult)
    ensures var vals := Fetch(snapshot, keys, "INTSTAT");
      && (r.PublishStop? <==> exists k :: 0 <= k < |keys| && vals[k].Some?)
      && (r.PublishStop? ==>
          && r.message == "INTSTAT=stop"
          && r.missing == |keys| - |Compact(vals)|
          && (r.missing > 0 <==> exists k :: 0 <= k < |keys| && vals[k].None?))
  {
    var vals := Fetch(snapshot, keys, "INTSTAT");
    var present := Compact(vals);
    if present == [] then NothingToStop else PublishStop(|keys| - |present|, StopMessage)
  }

  datatype Command = StartCmd | StopCmd | TestCmd

  /** The first command-line word; anything but start, stop or test is a usage error. */
  function ParseCommand(arg: Option<string>): (c: Option<Command>)
    ensures c.None? <==> arg !in {Some("start"), Some("stop"), Some("test")}
    ensures c == Some(StartCmd) <==> arg == Some("start")
    ensures c == Some(StopCmd) <==> arg == Some("stop")
  {
    match arg
    case Some("start") => Some(StartCmd)
    case Some("stop") => Some(StopCmd)
    case Some("test") => Some(TestCmd)
    case _ => None
  }

  /** How the script ends: its exit status and what, if anything, it published. */
  datatype Exit = Exit(status: nat, published: Option<string>)

  /** The whole script after option parsing. */
  function Ctl(arg: Option<string>, snapshot: Snapshot, numXbox: int, numInst: int,
               intdelay: int, intCount: int): (e: Exit)
    requires arg == Some("start") ==> GpuMcntsDecimal(snapshot, StatusKeys(numXbox, numInst))
    ensures e.status == 1 <==> ParseCommand(arg).None?
    ensures e.status == 1 || arg == Some("test") ==> e.published.None?
    ensures var keys := StatusKeys(numXbox, numInst);
      arg == Some("stop") ==>
        (e.published == Some(StopMessage) <==>
          exists k :: 0 <= k < |keys| && Fetch(snapshot, keys, "INTSTAT")[k].Some?)
    ensures var keys := StatusKeys(numXbox, numInst);
      arg == Some("start") ==>
        (e.published.Some? <==>
          exists k :: 0 <= k < |keys| && Fetch(snapshot, keys, "GPUMCNT")[k].Some?)
    ensures var keys := StatusKeys(numXbox, numInst);
      arg == Some("start") && Start(snapshot, keys, intdelay, intCount).PublishStart? ==>
        e.published == Some(Start(snapshot, keys, intdelay, intCount).plan.message)
  {
    var keys := StatusKeys(numXbox, numInst);
    match ParseCommand(arg)
    case None => Exit(1, None)
    case Some(StartCmd) =>
      (match Start(snapshot, keys, intdelay, intCount)
       case NoGpuMcnt => Exit(0, None)
       case PublishStart(p) => Exit(0, Some(p.message)))
    case Some(StopCmd) =>
      (match Stop(snapshot, keys)
       case NothingToStop => Exit(0, None)
       case PublishStop(_, msg) => Exit(0, Some(msg)))
    case Some(TestCmd) => Exit(0, None)
  }

  /** A receiver's reading of one `KEY=VALUE` line: split at the first '='. */
  function KeyValue(line: string): (string, string) {
    if line == [] then ("", "")
    else if line[0] == '=' then ("", line[1..])
    else
      var kv := KeyValue(line[1..]);
      ([line[0]] + kv.0, kv.1)
  }

  /** A receiver's reading of a broadcast: one key/value pair per line. */
  function DecodeMessage(msg: string): seq<(string, string)> {
    var lines := SplitOn(msg, '\n');
    seq(|lines|, k requires 0 <= k < |lines| => KeyValue(lines[k]))
  }

  lemma {:induction false} KeyValueJoin(key: string, value: string)
    requires '=' !in key
    ensures KeyValue(key + "=" + value) == (key, value)
    decreases |key|
  {
    var line := key + "=" + value;
    if key == [] {
      assert line[1..] == value;
    } else {
      assert line[1..] == key[1..] + "=" + value;
      KeyValueJoin(key[1..], value);
      assert key == [key[0]] + key[1..];
    }
  }

  lemma IntTextPlain(i: int)
    ensures '\n' !in IntToString(i) && '=' !in IntToString(i)
  {
    var s := IntToString(i);
    assert forall k :: 0 <= k < |s| ==> s[k] != '\n' && s[k] != '=';
  }

  lemma SplitFourLines(l1: string, l2: string, l3: string, l4: string)
    requires '\n' !in l1 && '\n' !in l2 && '\n' !in l3 && '\n' !in l4
    ensures SplitOn(l1 + "\n" + l2 + "\n" + l3 + "\n" + l4, '\n') == [l1, l2, l3, l4]
  {
    var r3 := l3 + "\n" + l4;
    var r2 := l2 + "\n" + r3;
    assert l1 + "\n" + l2 + "\n" + l3 + "\n" + l4 == l1 + "\n" + r2;
    SplitOnNoSep(l4, '\n');
    SplitOnJoin(l3, '\n', l4);
    assert SplitOn(r3, '\n') == [l3, l4];
    SplitOnJoin(l2, '\n', r3);
    assert SplitOn(r2, '\n') == [l2, l3, l4];
    SplitOnJoin(l1, '\n', r2);
  }

  /** Four `KEY=VALUE` lines joined by newlines read back as the four pairs. */
  lemma DecodeFourFields(k1: string, v1: string, k2: string, v2: string,
                         k3: string, v3: string, k4: string, v4: string)
    requires '=' !in k1 && '=' !in k2 && '=' !in k3 && '=' !in k4
    requires '\n' !in k1 + v1 && '\n' !in k2 + v2 && '\n' !in k3 + v3 && '\n' !in k4 + v4
    ensures DecodeMessage(Field(k1, v1) + "\n" + Field(k2, v2) + "\n" + Field(k3, v3) + "\n" + Field(k4, v4)) ==
      [(k1, v1), (k2, v2), (k3, v3), (k4, v4)]
  {
    FieldLine(k1, v1);
    FieldLine(k2, v2);
    FieldLine(k3, v3);
    FieldLine(k4, v4);
    SplitFourLines(Field(k1, v1), Field(k2, v2), Field(k3, v3), Field(k4, v4));
  }

  /** A line "KEY=" + value reads back as (KEY, value). */
  lemma FieldLine(key: string, value: string)
    requires '=' !in key
    ensures KeyValue(Field(key, value)) == (key, value)
    ensures '\n' !in key + value ==> '\n' !in Field(key, value)
  {
    KeyValueJoin(key, value);
    assert forall c :: c in Field(key, value) ==> c in key || c == '=' || c in value;
  }

  /** The start message reads back as the four fields, and the numbers as the planned values. */
  lemma StartMessageDecodes(intSync: int, intCount: int)
    ensures DecodeMessage(StartMessage(intSync, intCount)) ==
      [("INTSYNC", IntToString(intSync)), ("INTCOUNT", IntToString(intCount)),
       ("INTSTAT", "start"), ("OUTDUMPS", "0")]
    ensures ParseInt(IntToString(intSync)) == intSync
    ensures ParseInt(IntToString(intCount)) == intCount
  {
    var a, b := IntToString(intSync), IntToString(intCount);
    IntTextPlain(intSync);
    IntTextPlain(intCount);
    assert forall c :: c in "INTSYNC" + a ==> c in "INTSYNC" || c in a;
    assert forall c :: c in "INTCOUNT" + b ==> c in "INTCOUNT" || c in b;
    DecodeFourFields("INTSYNC", a, "INTCOUNT", b, "INTSTAT", "start", "OUTDUMPS", "0");
    ParseIntToString(intSync);
    ParseIntToString(intCount);
  }

  // ---------------------------------------------------------------- options

  /** The counts and settings the script takes from its options; the defaults are its OPTS table. */
  datatype Options = Options(numXbox: int, numInst: int, intCount: int, intDelay: int)

  const DefaultOptions: Options := Options(8, 4, 2048, 10)

  /** `-x N` as written: the handler stores N as the number of instances per host. */
  function NumXhostAsWritten(o: Options, n: int): (r: Options)
    ensures r.numInst == n && r.numXbox == o.numXbox
    ensures r.intCount == o.intCount && r.intDelay == o.intDelay
  {
    o.(numInst := n)
  }

  /** `-x N` as its help text describes it: the number of X hosts. */
  function NumXhost(o: Options, n: int): (r: Options)
    ensures r.numXbox == n && r.numInst == o.numInst
    ensures r.intCount == o.intCount && r.intDelay == o.intDelay
  {
    o.(numXbox := n)
  }

  /** As written, `-x 2` keeps all eight hosts and asks for two instances on each. */
  lemma NumXhostAsWrittenExample()
    ensures var o := NumXhostAsWritten(DefaultOptions, 2);
      |StatusKeys(o.numXbox, o.numInst)| == 16 && StatusKeys(o.numXbox, o.numInst)[15] == InstanceKey(XHost(8), 1)
  {
    StatusKeysLength(8, 2);
    StatusKeyAt(8, 2, 15);
  }

  /** With `-x N` read as the number of hosts, the keys are those of hosts px1..pxN, four instances each. */
  lemma NumXhostKeys(n: nat)
    ensures var o := NumXhost(DefaultOptions, n);
      var keys := StatusKeys(o.numXbox, o.numInst);
      && |keys| == 4 * n
      && forall k :: 0 <= k < |keys| ==> 1 <= HostNumber(keys[k].host) <= n && 0 <= keys[k].instance < 4
  {
    var keys := StatusKeys(n, 4);
    StatusKeysLength(n, 4);
    forall k | 0 <= k < |keys|
      ensures 1 <= HostNumber(keys[k].host) <= n && 0 <= keys[k].instance < 4
    {
      StatusKeyAt(n, 4, k);
      HostNumberOfXHost(k / 4 + 1);
    }
  }
}
