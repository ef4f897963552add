/**
 * The pure parts of bin/paper_feng_init.rb: reading HOST[:FID] arguments,
 * the network identity of each F engine's ten-gigabit links, the switch ARP
 * table, MAC address text and the equaliser coefficient block.
 */
module FengAddress {
  import opened Wrappers
  import opened Decimal

  // ---------------------------------------------------------------- HOST[:FID]

  datatype HostFid = HostFid(host: string, fid: int)

  /** Ruby's `s.split(sep)`: the pieces between separators, trailing empty pieces dropped. */
  function RubySplit(s: string, sep: char): (r: seq<string>)
    ensures forall k :: 0 <= k < |r| ==> sep !in r[k]
    ensures r != [] ==> r[|r| - 1] != ""
    ensures s == [] ==> r == []
    ensures var p := SplitOn(s, sep);
      |r| <= |p| && r == p[..|r|] && forall k :: |r| <= k < |p| ==> p[k] == ""
  {
    DropTrailingEmpty(SplitOn(s, sep))
  }

  function DropTrailingEmpty(pieces: seq<string>): (r: seq<string>)
    ensures |r| <= |pieces| && r == pieces[..|r|]
    ensures r != [] ==> r[|r| - 1] != ""
    ensures forall k :: |r| <= k < |pieces| ==> pieces[k] == ""
  {
    if pieces == [] then []
    else if pieces[|pieces| - 1] == "" then DropTrailingEmpty(pieces[..|pieces| - 1])
    else pieces
  }

  /** A host named "pfN": the case in which the FID may be omitted. */
  predicate IsPfName(host: string) {
    |host| >= 3 && host[..2] == "pf" && AllDigits(host[2..])
  }

  /** The host part `split(':')` yields (an argument with no fields has none; "" stands for nil). */
  function HostField(fields: seq<string>): string {
    if |fields| >= 1 then fields[0] else ""
  }

  /**
   * What the model covers of `Integer()`: the FID text, explicit or taken
   * from "pfN", is plain decimal, and the argument is a single line.
   */
  predicate ParsableArg(arg: string) {
    var fields := RubySplit(arg, ':');
    && '\n' !in arg
    && (|fields| >= 2 ==> IsCanonical(fields[1]))
    && (|fields| < 2 && IsPfName(HostField(fields)) ==> IsCanonical(HostField(fields)[2..]))
  }

  /** One HOST[:FID] argument; an error is the "Cannot determine FID" exit. */
  function ParseHostFid(arg: string): (r: Result<HostFid, string>)
    requires ParsableArg(arg)
    ensures r.Err? ==> r.error == arg
  {
    var fields := RubySplit(arg, ':');
    if |fields| >= 2 then Ok(HostFid(fields[0], ParseNat(fields[1])))
    else
      var host := HostField(fields);
      if IsPfName(host) then Ok(HostFid(host, ParseNat(host[2..]) - 1)) else Err(arg)
  }

  lemma HostOnly(host: string)
    requires ':' !in host && host != ""
    ensures RubySplit(host, ':') == [host]
  {
    SplitOnNoSep(host, ':');
  }

  /** An explicit ":FID" suffix wins, whatever the host is called. */
  lemma ExplicitFid(host: string, fid: nat)
    requires ':' !in host && '\n' !in host
    ensures ParsableArg(host + ":" + NatToString(fid))
    ensures ParseHostFid(host + ":" + NatToString(fid)) == Ok(HostFid(host, fid))
  {
    var digits := NatToString(fid);
    NatToStringCanonical(fid);
    DigitsHaveNo(digits, ':');
    DigitsHaveNo(digits, '\n');
    SplitOnJoin(host, ':', digits);
    SplitOnNoSep(digits, ':');
    assert SplitOn(host + ":" + digits, ':') == [host, digits];
    ParseNatToString(fid);
  }

  /** Fields after the FID are ignored: HOST:N:REST reads like HOST:N. */
  lemma ExtraFields(host: string, fid: nat, rest: string)
    requires ':' !in host && '\n' !in host && '\n' !in rest
    ensures ParsableArg(host + ":" + NatToString(fid) + ":" + rest)
    ensures ParseHostFid(host + ":" + NatToString(fid) + ":" + rest) == Ok(HostFid(host, fid))
  {
    var digits := NatToString(fid);
    var arg := host + ":" + digits + ":" + rest;
    NatToStringCanonical(fid);
    DigitsHaveNo(digits, ':');
    DigitsHaveNo(digits, '\n');
    assert arg == host + [':'] + (digits + [':'] + rest);
    SplitOnJoin(host, ':', digits + [':'] + rest);
    SplitOnJoin(digits, ':', rest);
    var p := SplitOn(arg, ':');
    assert p[0] == host && p[1] == digits;
    var r := RubySplit(arg, ':');
    assert |r| >= 2;
    assert r[0] == host && r[1] == digits;
    ParseNatToString(fid);
  }

  /** Without a suffix, host "pfN" gets FID N - 1. */
  lemma PfHostFid(n: nat)
    ensures ParsableArg("pf" + NatToString(n))
    ensures ParseHostFid("pf" + NatToString(n)) == Ok(HostFid("pf" + NatToString(n), n - 1))
  {
    var digits := NatToString(n);
    NatToStringCanonical(n);
    DigitsHaveNo(digits, ':');
    DigitsHaveNo(digits, '\n');
    PfHostFidOf("pf" + digits, digits);
    ParseNatToString(n);
  }

  lemma PfHostFidOf(host: string, digits: string)
    requires host == "pf" + digits && IsCanonical(digits) && ':' !in digits && '\n' !in digits
    ensures ParsableArg(host)
    ensures ParseHostFid(host) == Ok(HostFid(host, ParseNat(digits) - 1))
  {
    assert host[..2] == "pf" && host[2..] == digits;
    assert ':' !in host && '\n' !in host;
    HostOnly(host);
  }

  /** Without a suffix, any host not named "pfN" is refused. */
  lemma OtherHostRefused(host: string)
    requires ':' !in host && '\n' !in host && host != "" && !IsPfName(host)
    ensures ParsableArg(host)
    ensures ParseHostFid(host).Err?
  {
    HostOnly(host);
  }

  /** A trailing ':' is dropped by `split`, so it behaves as no suffix at all. */
  lemma TrailingColon(host: string)
    requires ':' !in host && ParsableArg(host)
    ensures ParsableArg(host + ":")
    ensures ParseHostFid(host + ":").Ok? == ParseHostFid(host).Ok?
    ensures ParseHostFid(host).Ok? ==> ParseHostFid(host + ":") == ParseHostFid(host)
  {
    assert host + ":" == host + [':'] + "";
    SplitOnJoin(host, ':', "");
    SplitOnNoSep(host, ':');
    assert SplitOn(host + ":", ':') == [host, ""];
    assert [host, ""][..1] == [host];
    assert DropTrailingEmpty([host, ""]) == DropTrailingEmpty([host]);
    assert RubySplit(host + ":", ':') == RubySplit(host, ':');
  }

  /** Argument k is the first that cannot be read, and it fails with `e`. */
  predicate FirstErrorAt(args: seq<string>, k: int, e: string)
    requires forall k :: 0 <= k < |args| ==> ParsableArg(args[k])
  {
    && 0 <= k < |args|
    && ParseHostFid(args[k]) == Err(e)
    && forall j :: 0 <= j < k ==> ParseHostFid(args[j]).Ok?
  }

  ghost predicate FirstError(args: seq<string>, e: string)
    requires forall k :: 0 <= k < |args| ==> ParsableArg(args[k])
  {
    exists k :: 0 <= k < |args| && FirstErrorAt(args, k, e)
  }

  /** All arguments, in order; the first bad one ends the script with exit status 1. */
  function ParseArgs(args: seq<string>): (r: Result<seq<HostFid>, string>)
    requires forall k :: 0 <= k < |args| ==> ParsableArg(args[k])
    ensures r.Ok? ==> |r.value| == |args|
  {
    if args == [] then Ok([])
    else
      match ParseHostFid(args[0])
      case Err(e) => Err(e)
      case Ok(hf) =>
        match ParseArgs(args[1..])
        case Err(e) => Err(e)
        case Ok(hfs) => Ok([hf] + hfs)
  }

  /** The arguments are read one for one when all are good; otherwise the first bad one is reported. */
  lemma {:induction false} ParseArgsSpec(args: seq<string>)
    requires forall k :: 0 <= k < |args| ==> ParsableArg(args[k])
    ensures ParseArgs(args).Ok? <==> forall k :: 0 <= k < |args| ==> ParseHostFid(args[k]).Ok?
    ensures ParseArgs(args).Ok? ==>
      forall k :: 0 <= k < |args| ==> ParseHostFid(args[k]) == Ok(ParseArgs(args).value[k])
    ensures ParseArgs(args).Err? ==> FirstError(args, ParseArgs(args).error)
  {
    if args != [] {
      var tail := args[1..];
      ParseArgsSpec(tail);
      assert forall k :: 1 <= k < |args| ==> args[k] == tail[k - 1];
      match ParseHostFid(args[0])
      case Err(e) =>
        assert FirstErrorAt(args, 0, e);
      case Ok(hf) =>
        match ParseArgs(tail)
        case Err(e) =>
          var k :| 0 <= k < |tail| && FirstErrorAt(tail, k, e);
          assert FirstErrorAt(args, k + 1, e);
        case Ok(hfs) =>
      }
  }

  // ---------------------------------------------------------------- addresses

  const SwMacBase: int := 0x0202_0a0a_0a00
  const SwIpBase: int := 0x0a0a_0a00
  const GpuMacBase: int := 0x0202_c0a8_0000
  const GpuIpBase: int := 0x0a0a_0000

  /** The F engines and links of the array: FIDs 0..7, four links per engine. */
  predicate InArray(fid: int, link: int) {
    0 <= fid < 8 && 0 <= link < 4
  }

  /** Offset of link `link` of engine `fid` on the switch-facing subnet. */
  function SwOffset(fid: int, link: int): int {
    32 + 8 * link + fid
  }

  function SwIp(fid: int, link: int): int {
    SwIpBase + SwOffset(fid, link)
  }

  function SwMac(fid: int, link: int): int {
    SwMacBase + SwOffset(fid, link)
  }

  /** Offset of link `link` of engine `fid` on the GPU-facing subnet. */
  function GpuOffset(fid: int, link: int): int {
    512 + 256 * link + fid + 1
  }

  function GpuIp(fid: int, link: int): int {
    GpuIpBase + GpuOffset(fid, link)
  }

  function GpuMac(fid: int, link: int): int {
    GpuMacBase + GpuOffset(fid, link)
  }

  /** The 32 switch-facing links get distinct addresses, all in base+32 .. base+63. */
  lemma SwAddressesDistinct(fid: int, link: int, fid2: int, link2: int)
    requires InArray(fid, link) && InArray(fid2, link2)
    ensures SwIpBase + 32 <= SwIp(fid, link) < SwIpBase + 64
    ensures SwMacBase + 32 <= SwMac(fid, link) < SwMacBase + 64
    ensures SwIp(fid, link) == SwIp(fid2, link2) <==> fid == fid2 && link == link2
    ensures SwMac(fid, link) == SwMac(fid2, link2) <==> fid == fid2 && link == link2
  {
  }

  /** The 32 GPU-facing links get distinct addresses, all in base+513 .. base+1288. */
  lemma GpuAddressesDistinct(fid: int, link: int, fid2: int, link2: int)
    requires InArray(fid, link) && InArray(fid2, link2)
    ensures GpuIpBase + 513 <= GpuIp(fid, link) <= GpuIpBase + 1288
    ensures GpuIp(fid, link) == GpuIp(fid2, link2) <==> fid == fid2 && link == link2
    ensures GpuMac(fid, link) == GpuMac(fid2, link2) <==> fid == fid2 && link == link2
  {
  }

  /** The X engine at the far end of GPU link `link` of engine `fid`: "px{fid+1}-{link+2}". */
  function PeerName(fid: int, link: int): string {
    "px" + IntToString(fid + 1) + "-" + IntToString(link + 2)
  }

  /** Reads a peer host name back into the (FID, link) that names it. */
  function ParsePeerName(name: string): Option<(int, int)> {
    if |name| >= 2 && name[..2] == "px" then
      var parts := SplitOn(name[2..], '-');
      if |parts| == 2 && IsCanonical(parts[0]) && IsCanonical(parts[1]) then
        Some((ParseNat(parts[0]) - 1, ParseNat(parts[1]) - 2))
      else None
    else None
  }

  /** Every engine and link names its peer uniquely: the name reads back as (fid, link). */
  lemma PeerNameRoundTrip(fid: nat, link: nat)
    ensures ParsePeerName(PeerName(fid, link)) == Some((fid, link))
  {
    var a, b := NatToString(fid + 1), NatToString(link + 2);
    var name := PeerName(fid, link);
    assert name == "px" + (a + "-" + b);
    assert name[2..] == a + "-" + b;
    DigitsHaveNo(a, '-');
    DigitsHaveNo(b, '-');
    SplitOnJoin(a, '-', b);
    SplitOnNoSep(b, '-');
    NatToStringCanonical(fid + 1);
    NatToStringCanonical(link + 2);
    ParseNatToString(fid + 1);
    ParseNatToString(link + 2);
  }

  lemma PeerNameExample()
    ensures PeerName(0, 0) == "px1-2"
  {
  }

  // ---------------------------------------------------------------- MAC text

  const HexChars: string := "0123456789abcdef"

  predicate IsHexDigit(c: char) {
    c in HexChars
  }

  predicate HexString(s: string) {
    forall k :: 0 <= k < |s| ==> IsHexDigit(s[k])
  }

  /** Hex digits and ':' only: the characters of MAC text. */
  predicate MacChars(s: string) {
    forall k :: 0 <= k < |s| ==> IsHexDigit(s[k]) || s[k] == ':'
  }

  function HexValue(c: char): (d: nat)
    requires IsHexDigit(c)
    ensures d < 16 && HexChars[d] == c
  {
    if '0' <= c <= '9' then c as int - '0' as int else c as int - 'a' as int + 10
  }

  function Pow16(w: nat): nat {
    if w == 0 then 1 else 16 * Pow16(w - 1)
  }

  /** `'%0*x' % m` for a value that fits: exactly w lower-case hex digits. */
  function HexFixed(m: nat, w: nat): (s: string)
    ensures |s| == w && HexString(s)
  {
    if w == 0 then [] else HexFixed(m / 16, w - 1) + [HexChars[m % 16]]
  }

  function ParseHex(s: string): nat
    requires HexString(s)
  {
    if s == [] then 0 else ParseHex(s[..|s| - 1]) * 16 + HexValue(s[|s| - 1])
  }

  lemma {:induction false} ParseHexFixed(m: nat, w: nat)
    requires m < Pow16(w)
    ensures ParseHex(HexFixed(m, w)) == m
  {
    if w > 0 {
      var s := HexFixed(m, w);
      var d := m % 16;
      assert s[..w - 1] == HexFixed(m / 16, w - 1) && s[w - 1] == HexChars[d];
      Pow16Quotient(m, w);
      ParseHexFixed(m / 16, w - 1);
      HexValueOf(d);
      assert ParseHex(s) == ParseHex(s[..w - 1]) * 16 + HexValue(s[w - 1]);
    }
  }

  lemma Pow16Quotient(m: nat, w: nat)
    requires w > 0 && m < Pow16(w)
    ensures m / 16 < Pow16(w - 1) && m == m / 16 * 16 + m % 16
  {
  }

  /** Digit d's character reads back as d. */
  lemma HexValueOf(d: nat)
    requires d < 16
    ensures IsHexDigit(HexChars[d]) && HexValue(HexChars[d]) == d
  {
  }

  lemma HexHasNoColon(s: string)
    requires HexString(s)
    ensures ':' !in s
  {
    forall k | 0 <= k < |s| ensures s[k] != ':' {
      assert IsHexDigit(s[k]);
    }
  }

  /** `scan(/../).join(':')` on an even number of characters. */
  function Colonize(s: string): string
    requires |s| % 2 == 0
  {
    if |s| <= 2 then s else s[..2] + ":" + Colonize(s[2..])
  }

  function RemoveColons(s: string): (r: string)
    ensures ':' !in r
  {
    if s == [] then [] else (if s[0] == ':' then [] else [s[0]]) + RemoveColons(s[1..])
  }

  lemma {:induction false} RemoveColonsAppend(a: string, b: string)
    ensures RemoveColons(a + b) == RemoveColons(a) + RemoveColons(b)
    decreases |a|
  {
    if a == [] {
      assert a + b == b;
    } else {
      assert (a + b)[0] == a[0];
      assert (a + b)[1..] == a[1..] + b;
      RemoveColonsAppend(a[1..], b);
    }
  }

  lemma {:induction false} RemoveColonsKeeps(s: string)
    requires MacChars(s)
    ensures HexString(RemoveColons(s))
    decreases |s|
  {
    if s != [] {
      RemoveColonsKeeps(s[1..]);
    }
  }

  lemma {:induction false} ColonizeShape(s: string)
    requires |s| % 2 == 0 && |s| >= 2 && ':' !in s
    ensures |Colonize(s)| == |s| + |s| / 2 - 1
    ensures forall k :: 0 <= k < |Colonize(s)| ==> (Colonize(s)[k] == ':' <==> k % 3 == 2)
    decreases |s|
  {
    if |s| > 2 {
      var t := Colonize(s[2..]);
      ColonizeShape(s[2..]);
      assert Colonize(s) == [s[0], s[1], ':'] + t;
      forall k | 3 <= k < |Colonize(s)|
        ensures Colonize(s)[k] == ':' <==> k % 3 == 2
      {
        assert Colonize(s)[k] == t[k - 3];
      }
    }
  }

  lemma {:induction false} ColonizeRemove(s: string)
    requires |s| % 2 == 0 && ':' !in s
    ensures RemoveColons(Colonize(s)) == s
    decreases |s|
  {
    if |s| > 2 {
      var head := [s[0], s[1], ':'];
      ColonizeRemove(s[2..]);
      assert Colonize(s) == head + Colonize(s[2..]);
      RemoveColonsAppend(head, Colonize(s[2..]));
      assert s[0] != ':' && s[1] != ':';
      assert RemoveColons([':']) == [] by {
        assert [':'][1..] == [];
      }
      assert RemoveColons([s[1], ':']) == [s[1]] by {
        assert [s[1], ':'][1..] == [':'];
      }
      assert RemoveColons(head) == [s[0], s[1]] by {
        assert head[1..] == [s[1], ':'];
      }
      assert s == [s[0], s[1]] + s[2..];
    } else {
      NoColonSeq(s);
    }
  }

  lemma {:induction false} NoColonSeq(s: string)
    requires ':' !in s
    ensures RemoveColons(s) == s
    decreases |s|
  {
    if s != [] {
      NoColonSeq(s[1..]);
      assert s == [s[0]] + s[1..];
    }
  }

  const MacLimit: int := 0x1_0000_0000_0000

  /** The verbose MAC display: twelve lower-case hex digits in six colon-separated pairs. */
  function MacText(mac: int): string
    requires 0 <= mac < MacLimit
  {
    Colonize(HexFixed(mac, 12))
  }

  /** Reads a colon-separated hex MAC back into its value. */
  function ParseMac(text: string): int
    requires MacChars(text)
  {
    RemoveColonsKeeps(text);
    ParseHex(RemoveColons(text))
  }

  lemma MacLimitDigits()
    ensures Pow16(12) == MacLimit
  {
  }

  /** MAC text is 17 characters with ':' exactly at every third place, and reads back as the MAC. */
  lemma MacTextRoundTrip(mac: int)
    requires 0 <= mac < MacLimit
    ensures |MacText(mac)| == 17
    ensures forall k :: 0 <= k < 17 ==> (MacText(mac)[k] == ':' <==> k % 3 == 2)
    ensures MacChars(MacText(mac))
    ensures ParseMac(MacText(mac)) == mac
  {
    var hex := HexFixed(mac, 12);
    HexHasNoColon(hex);
    ColonizeShape(hex);
    ColonizeRemove(hex);
    MacLimitDigits();
    ParseHexFixed(mac, 12);
    var text := MacText(mac);
    forall k | 0 <= k < |text| ensures IsHexDigit(text[k]) || text[k] == ':' {
      if text[k] != ':' {
        assert text[k] in RemoveColons(text) by {
          KeptChar(text, k);
        }
      }
    }
  }

  lemma {:induction false} KeptChar(s: string, k: int)
    requires 0 <= k < |s| && s[k] != ':'
    ensures s[k] in RemoveColons(s)
    decreases k
  {
    if k > 0 {
      KeptChar(s[1..], k - 1);
    }
  }

  // ---------------------------------------------------------------- ARP table

  const TwoTo32: int := 0x1_0000_0000
  /** The high word of every ARP entry: sw_mac_base >> 32. */
  const ArpHigh: int := SwMacBase / TwoTo32
  /** The low word of ARP entry 0: sw_mac_base & 0xffff_ffff. */
  const ArpLowBase: int := SwMacBase % TwoTo32

  /** The 2 x 256 word table as laid out in memory: high word, then low word, per entry. */
  function ArpWords(): (t: seq<int>)
    ensures |t| == 512
  {
    seq(512, w requires 0 <= w < 512 => if w % 2 == 0 then ArpHigh else ArpLowBase + w / 2)
  }

  /** Entry j of the table, read as a 48-bit MAC from its two words. */
  function ArpEntry(j: int): int
    requires 0 <= j < 256
  {
    ArpWords()[2 * j] * TwoTo32 + ArpWords()[2 * j + 1]
  }

  /** Entry j of the ARP table maps index j to sw_mac_base + j. */
  lemma ArpEntryIsMac(j: int)
    requires 0 <= j < 256
    ensures ArpEntry(j) == SwMacBase + j
    ensures ArpWords()[2 * j] == 0x0202
  {
    assert ArpHigh == 0x0202 && ArpLowBase == 0x0a0a_0a00;
  }

  /** The table entry at a link's own switch offset is that link's own MAC. */
  lemma SwMacInArp(fid: int, link: int)
    requires InArray(fid, link)
    ensures 0 <= SwOffset(fid, link) < 256 && ArpEntry(SwOffset(fid, link)) == SwMac(fid, link)
  {
    ArpEntryIsMac(SwOffset(fid, link));
  }

  /**
   * The table as the script builds it, in place on an NArray of shape (2, 256):
   * `indgen!`, `div!(2)`, `add!(sw_mac_base & 0xffff_ffff)`, then column 0 set
   * to `sw_mac_base >> 32`. Element [c, r] lives at index 2 * r + c.
   */
  method BuildArpTable() returns (table: seq<int>)
    ensures table == ArpWords()
  {
    var a := new int[512];
    for k := 0 to 512
      invariant forall m :: 0 <= m < k ==> a[m] == m
    {
      a[k] := k;
    }
    for k := 0 to 512
      invariant forall m :: 0 <= m < k ==> a[m] == m / 2
      invariant forall m :: k <= m < 512 ==> a[m] == m
    {
      a[k] := a[k] / 2;
    }
    for k := 0 to 512
      invariant forall m :: 0 <= m < k ==> a[m] == ArpLowBase + m / 2
      invariant forall m :: k <= m < 512 ==> a[m] == m / 2
    {
      a[k] := a[k] + ArpLowBase;
    }
    for r := 0 to 256
      invariant forall m :: 0 <= m < 512 ==>
        a[m] == if m % 2 == 0 && m / 2 < r then ArpHigh else ArpLowBase + m / 2
    {
      a[2 * r] := ArpHigh;
    }
    table := a[..];
  }

  // ---------------------------------------------------------------- EQ block

  /** The coefficient block written to each of the 16 EQ BRAMs. */
  function EqBlock(eq: int): (block: seq<int>)
    ensures |block| == 2048
    ensures forall k :: 0 <= k < 2048 ==> block[k] % 128 == 0 && block[k] / 128 == eq
  {
    seq(2048, _ => 128 * eq)
  }
}
