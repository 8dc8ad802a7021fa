/** demos/byok-playground/src/worker/ssrf.ts: inet_aton-style IPv4 addresses. */
module Ipv4 {
  import opened JsStrings
  import opened Digits
  import opened Options

  const MAX_SAFE_INTEGER := 9007199254740991

  /** One part: hexadecimal with `0x`, octal with a leading zero, or decimal. */
  function ParsePart(part: string): Option<nat> {
    if |part| == 0 || |part| > 12 then None
    else if |part| > 2 && part[0] == '0' && part[1] in {'x', 'X'} && AllDigits(part[2..], 16) then
      Safe(Value(part[2..], 16))
    else if |part| > 1 && part[0] == '0' && AllDigits(part, 8) then Safe(Value(part, 8))
    else if AllDigits(part, 10) then Safe(Value(part, 10))
    else None
  }

  function Safe(n: nat): Option<nat> {
    if n > MAX_SAFE_INTEGER then None else Some(n)
  }

  function Host(host: string): string {
    if host != "" && host[|host| - 1] == '.' then host[..|host| - 1] else host
  }

  method ParseIPv4(host: string) returns (r: Option<nat>)
    ensures r == Ipv4Of(host)
  {
    hide Split, ParsePart, Numbers, Bytes, Power;
    NoneYet();
    var raw := Host(host);
    if raw == "" || ':' in raw { return None; }
    var parts := Split(raw, ".");
    if |parts| < 1 || |parts| > 4 { return None; }
    var nums: seq<nat> := [];
    for i := 0 to |parts|
      invariant Numbers(parts[..i]) == Some(nums)
    {
      NumbersSnoc(parts, i);
      var value := ParsePart(parts[i]);
      if value == None {
        NoNumbers(parts, i);
        return None;
      }
      nums := nums + [value.value];
    }
    assert parts[..|parts|] == parts;
    var lastBytes := 4 - (|nums| - 1);
    var last := nums[|nums| - 1];
    var lastMax := Power(256, lastBytes) - 1;
    if last > lastMax { return None; }
    var ip := 0;
    for i := 0 to |nums| - 1
      invariant ip == Bytes(nums[..i])
      invariant forall k | 0 <= k < i :: nums[k] <= 255
    {
      var value := nums[i];
      if value > 255 { return None; }
      BytesSnoc(nums, i);
      ip := ip * 256 + value;
    }
    BytesBound(nums[..|nums| - 1]);
    AddressBound(ip, last, |nums| - 1);
    ip := ip * Power(256, lastBytes) + last;
    if ip < 0 || ip > 0xffff_ffff { return None; }
    return Some(ip);
  }

  /** The numbers of all parts, if every part is a number. */
  function Numbers(parts: seq<string>): (r: Option<seq<nat>>)
    ensures r.Some? ==> |r.value| == |parts|
  {
    if parts == [] then Some([])
    else
      var front := Numbers(parts[..|parts| - 1]);
      var last := ParsePart(parts[|parts| - 1]);
      if front.None? || last.None? then None else Some(front.value + [last.value])
  }

  function Bytes(nums: seq<nat>): nat {
    if nums == [] then 0 else Bytes(nums[..|nums| - 1]) * 256 + nums[|nums| - 1]
  }

  /**
   * The address a text stands for: up to three single bytes, then one number that fills the bytes left
   * over.
   */
  function Ipv4Of(host: string): Option<nat> {
    var raw := Host(host);
    if raw == "" || ':' in raw then None
    else
      var nums := Numbers(Split(raw, "."));
      if nums.None? || |nums.value| > 4 then None
      else Address(nums.value)
  }

  function Address(nums: seq<nat>): Option<nat>
    requires 1 <= |nums| <= 4
  {
    var n := |nums| - 1;
    if (forall k | 0 <= k < n :: nums[k] <= 255) && nums[n] < Power(256, 4 - n)
    then Some(Bytes(nums[..n]) * Power(256, 4 - n) + nums[n])
    else None
  }

  lemma NoneYet()
    ensures Numbers([]) == Some([]) && Bytes([]) == 0
  {
  }

  lemma NumbersSnoc(parts: seq<string>, i: nat)
    requires i < |parts|
    ensures ParsePart(parts[i]).Some? && Numbers(parts[..i]).Some?
            ==> Numbers(parts[..i + 1]) == Some(Numbers(parts[..i]).value + [ParsePart(parts[i]).value])
  {
    assert parts[..i + 1][..i] == parts[..i];
  }

  lemma BytesSnoc(nums: seq<nat>, i: nat)
    requires i < |nums|
    ensures Bytes(nums[..i + 1]) == Bytes(nums[..i]) * 256 + nums[i]
  {
    assert nums[..i + 1][..i] == nums[..i];
  }

  lemma {:induction false} NoNumbers(parts: seq<string>, i: nat)
    requires i < |parts| && ParsePart(parts[i]).None?
    ensures Numbers(parts).None?
  {
    if i < |parts| - 1 { NoNumbers(parts[..|parts| - 1], i); }
  }

  lemma {:induction false} BytesBound(nums: seq<nat>)
    requires forall k | 0 <= k < |nums| :: nums[k] <= 255
    ensures Bytes(nums) < Power(256, |nums|)
  {
    if nums != [] { BytesBound(nums[..|nums| - 1]); }
  }

  lemma AddressBound(bytes: nat, last: nat, n: nat)
    requires n <= 3 && bytes < Power(256, n) && last < Power(256, 4 - n)
    ensures bytes * Power(256, 4 - n) + last < 0x1_0000_0000
  {
    Powers256();
  }

  lemma Powers256()
    ensures Power(256, 0) == 1 && Power(256, 1) == 256 && Power(256, 2) == 0x1_0000
    ensures Power(256, 3) == 0x100_0000 && Power(256, 4) == 0x1_0000_0000
  {
    assert Power(256, 2) == 256 * Power(256, 1);
    assert Power(256, 3) == 256 * Power(256, 2);
    assert Power(256, 4) == 256 * Power(256, 3);
  }

  /** Every accepted text stands for a 32-bit address. */
  lemma Ipv4InRange(host: string)
    ensures Ipv4Of(host).Some? ==> Ipv4Of(host).value < 0x1_0000_0000
  {
    hide Split;
    if Ipv4Of(host).Some? {
      var nums := Numbers(Split(Host(host), ".")).value;
      BytesBound(nums[..|nums| - 1]);
      AddressBound(Bytes(nums[..|nums| - 1]), nums[|nums| - 1], |nums| - 1);
    }
  }

  /** No part that passes the length test is too large for a double, so that refusal never happens. */
  lemma PartsAreSafe(part: string, base: nat)
    requires base in {8, 10, 16} && |part| <= 12 && (base == 16 ==> |part| <= 10) && AllDigits(part, base)
    ensures Safe(Value(part, base)) == Some(Value(part, base))
  {
    ValueBound(part, base);
    PowerGrows(base, |part|, if base == 16 then 10 else 12);
    assert Power(16, 5) == 0x10_0000 && Power(10, 6) == 100_0000 && Power(8, 6) == 26_2144;
    PowerSplits(16, 5, 5);
    PowerSplits(10, 6, 6);
    PowerSplits(8, 6, 6);
  }

  lemma {:induction false} PowerGrows(base: nat, a: nat, b: nat)
    requires a <= b && base >= 1
    ensures Power(base, a) <= Power(base, b)
    decreases b - a
  {
    if a < b {
      PowerGrows(base, a, b - 1);
      assert Power(base, b - 1) <= base * Power(base, b - 1);
    }
  }

  lemma {:induction false} PowerSplits(base: nat, a: nat, b: nat)
    ensures Power(base, a + b) == Power(base, a) * Power(base, b)
  {
    if a > 0 {
      PowerSplits(base, a - 1, b);
      TimesAssociates(base, Power(base, a - 1), Power(base, b));
    }
  }

  lemma TimesAssociates(a: nat, b: nat, c: nat)
    ensures a * (b * c) == a * b * c
  {
  }

  // ---------------------------------------------------------------- printing

  function Octets(ip: nat): seq<nat> {
    [ip / 0x100_0000 % 256, ip / 0x1_0000 % 256, ip / 0x100 % 256, ip % 256]
  }

  /** `dottedIPv4`. */
  function Dotted(ip: nat): string {
    ToText(Octets(ip)[0], 10) + "." + ToText(Octets(ip)[1], 10) + "."
    + ToText(Octets(ip)[2], 10) + "." + ToText(Octets(ip)[3], 10)
  }

  function OctetTexts(ip: nat): (texts: seq<string>)
    ensures |texts| == 4
  {
    seq(4, i requires 0 <= i < 4 => ToText(Octets(ip)[i], 10))
  }

  lemma DottedIsJoin(ip: nat)
    ensures Dotted(ip) == Join(OctetTexts(ip), ".")
  {
    var t := OctetTexts(ip);
    assert t[1..][1..][1..] == [t[3]] && t[1..][1..] == [t[2], t[3]] && t[1..] == [t[1], t[2], t[3]];
    var ab, cd := t[0] + "." + t[1], t[2] + "." + t[3];
    assert Join([t[2], t[3]], ".") == cd by { assert [t[2], t[3]][1..] == [t[3]]; }
    assert Join(t, ".") == t[0] + "." + (t[1] + "." + cd);
  }

  lemma OctetParses(n: nat)
    requires n < 256
    ensures ParsePart(ToText(n, 10)) == Some(n)
    ensures forall c | c in ToText(n, 10) :: '0' <= c <= '9'
  {
    TextRoundTrip(n, 10);
    assert Power(10, 3) == 1000 by { assert Power(10, 1) == 10 && Power(10, 2) == 10 * Power(10, 1); }
    TextLength(n, 10, 3);
    var s := ToText(n, 10);
    assert forall c | c in s :: Digit(c) < 10;
    if n == 0 { assert s == "0"; }
  }

  lemma OctetsRebuild(ip: nat)
    requires ip < 0x1_0000_0000
    ensures Address(Octets(ip)) == Some(ip)
  {
    var o := Octets(ip);
    Powers256();
    assert o[..3][..2] == o[..2] && o[..2][..1] == o[..1] && o[..1][..0] == [];
    assert Bytes(o[..1]) == o[0] && Bytes(o[..2]) == o[0] * 256 + o[1]
        && Bytes(o[..3]) == (o[0] * 256 + o[1]) * 256 + o[2];
    assert ip / 0x1_0000 == ip / 0x100 / 256 && ip / 0x100_0000 == ip / 0x1_0000 / 256;
  }

  lemma {:induction false} NumbersOfTexts(texts: seq<string>, nums: seq<nat>)
    requires |texts| == |nums| && forall i | 0 <= i < |nums| :: ParsePart(texts[i]) == Some(nums[i])
    ensures Numbers(texts) == Some(nums)
  {
    if texts != [] {
      NumbersOfTexts(texts[..|texts| - 1], nums[..|nums| - 1]);
      assert nums[..|nums| - 1] + [nums[|nums| - 1]] == nums;
    }
  }

  lemma {:induction false} JoinChars(parts: seq<string>, glue: string, c: char)
    requires c in Join(parts, glue)
    ensures c in glue || exists p | p in parts :: c in p
  {
    if |parts| > 1 && c !in parts[0] && c !in glue {
      JoinChars(parts[1..], glue, c);
    } else if |parts| > 0 {
      assert parts[0] in parts;
    }
  }

  /** Only decimal digits and dots. */
  lemma DottedChars(ip: nat)
    ensures forall c | c in Dotted(ip) :: c == '.' || '0' <= c <= '9'
  {
    hide Dotted, ParsePart;
    DottedIsJoin(ip);
    forall i | 0 <= i < 4 ensures forall c | c in OctetTexts(ip)[i] :: '0' <= c <= '9' { OctetParses(Octets(ip)[i]); }
    forall c | c in Dotted(ip) ensures c == '.' || '0' <= c <= '9' { JoinChars(OctetTexts(ip), ".", c); }
  }

  lemma DottedSplits(ip: nat)
    ensures Split(Dotted(ip), ".") == OctetTexts(ip)
    ensures Dotted(ip) != "" && Host(Dotted(ip)) == Dotted(ip) && IsDigitChar(Dotted(ip)[0])
  {
    hide Split, Join, ParsePart;
    var texts := OctetTexts(ip);
    DottedIsJoin(ip);
    forall p | p in texts ensures '.' !in p {
      var i :| 0 <= i < 4 && texts[i] == p;
      OctetParses(Octets(ip)[i]);
    }
    JoinThenSplit(texts, '.');
    OctetParses(Octets(ip)[0]);
    OctetParses(Octets(ip)[3]);
    var first, tail := texts[0], texts[3];
    assert first[0] in first && Dotted(ip)[0] == first[0];
    assert tail[|tail| - 1] in tail && Dotted(ip)[|Dotted(ip)| - 1] == tail[|tail| - 1];
  }

  /** Printing an address and parsing it gives it back. */
  lemma Ipv4RoundTrip(ip: nat)
    requires ip < 0x1_0000_0000
    ensures Ipv4Of(Dotted(ip)) == Some(ip)
  {
    hide Split, Dotted, ParsePart, Address;
    DottedSplits(ip);
    DottedChars(ip);
    var texts := OctetTexts(ip);
    forall i | 0 <= i < 4 ensures ParsePart(texts[i]) == Some(Octets(ip)[i]) { OctetParses(Octets(ip)[i]); }
    NumbersOfTexts(texts, Octets(ip));
    OctetsRebuild(ip);
  }

  /** Different addresses print differently. */
  lemma DottedInjective(a: nat, b: nat)
    requires a < 0x1_0000_0000 && b < 0x1_0000_0000 && Dotted(a) == Dotted(b)
    ensures a == b
  {
    Ipv4RoundTrip(a);
    Ipv4RoundTrip(b);
  }
}
