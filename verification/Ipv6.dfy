/**
 * demos/byok-playground/src/worker/ssrf.ts: `parseIPv6`; and demos/apollo-desk/src/worker/gates.ts:
 * `expandIpv6`, an independent parser of the same texts.
 */
module Ipv6 {
  import opened JsStrings
  import opened Digits
  import opened Options
  import opened Ipv4

  // ---------------------------------------------------------------- shared text steps

  function LowerChar(c: char): char {
    if 'A' <= c <= 'Z' then (c as int + 32) as char else c
  }

  /** `toLowerCase` on ASCII; no other character lowers to a hexadecimal digit or a separator. */
  function Lower(s: string): (t: string)
    ensures |t| == |s| && forall i | 0 <= i < |s| :: t[i] == LowerChar(s[i])
  {
    seq(|s|, i requires 0 <= i < |s| => LowerChar(s[i]))
  }

  lemma LettersAreLowered()
    ensures Lower("ABCDEFGHIJKLMNOPQRSTUVWXYZ") == "abcdefghijklmnopqrstuvwxyz"
    ensures forall c | !('A' <= c <= 'Z') :: LowerChar(c) == c
  {
  }

  predicate Bracketed(s: string) {
    |s| >= 2 && s[0] == '[' && s[|s| - 1] == ']'
  }

  function Inner(s: string): string
    requires |s| >= 2
  {
    s[1..|s| - 1]
  }

  function Unbracket(s: string): string {
    if Bracketed(s) then Inner(s) else s
  }

  /** Everything before the first `%`. */
  function CutZone(s: string): (t: string)
    ensures t <= s && '%' !in t
  {
    if s == "" || s[0] == '%' then "" else [s[0]] + CutZone(s[1..])
  }

  // ---------------------------------------------------------------- parseIPv6

  function LastColon(s: string): (i: int)
    requires ':' in s
    ensures 0 <= i < |s| && s[i] == ':' && ':' !in s[i + 1..]
  {
    if s[|s| - 1] == ':' then |s| - 1
    else
      assert s == s[..|s| - 1] + [s[|s| - 1]];
      var i := LastColon(s[..|s| - 1]);
      assert s[i + 1..] == s[..|s| - 1][i + 1..] + [s[|s| - 1]];
      i
  }

  /** The groups of one side of `::`; no group may be empty. */
  function Side(side: string): Option<seq<string>> {
    if side == "" then Some([])
    else if "" in Split(side, ":") then None
    else Some(Split(side, ":"))
  }

  function Zeros(n: nat): (z: seq<string>)
    ensures |z| == n && forall i | 0 <= i < n :: z[i] == "0"
  {
    seq(n, _ => "0")
  }

  function Groups(value: string, need: nat): (r: Option<seq<string>>)
    ensures r.Some? ==> |r.value| == need
  {
    var halves := Split(value, "::");
    if |halves| > 2 then None
    else
      var left := Side(halves[0]);
      var right := if |halves| == 2 then Side(halves[1]) else Some([]);
      if left.None? || right.None? then None
      else if |halves| == 1 then (if |left.value| == need then Some(left.value) else None)
      else if |left.value| + |right.value| > need then None
      else Some(left.value + Zeros(need - |left.value| - |right.value|) + right.value)
  }

  predicate IsGroup(g: string) {
    1 <= |g| <= 4 && AllDigits(g, 16) && forall c | c in g :: IsDigitChar(c)
  }

  function Nums(groups: seq<string>): (nums: seq<nat>)
    ensures |nums| == |groups| && forall i | 0 <= i < |nums| :: nums[i] == Value(groups[i], 16)
  {
    seq(|groups|, i requires 0 <= i < |groups| => Value(groups[i], 16))
  }

  function Hextets(value: string, need: nat): (r: Option<seq<nat>>)
    ensures r.Some? ==> |r.value| == need
  {
    var groups := Groups(value, need);
    if groups.None? || exists g | g in groups.value :: !IsGroup(g) then None
    else Some(Nums(groups.value))
  }

  function Fold(nums: seq<nat>): nat {
    if nums == [] then 0 else Fold(nums[..|nums| - 1]) * 0x1_0000 + nums[|nums| - 1]
  }

  function CoreOf(host: string): string {
    CutZone(Unbracket(Lower(Trim(host))))
  }

  function Ipv6Of(host: string): Option<nat> {
    var value := CoreOf(host);
    if ':' !in value then None else AddressAt(value, LastColon(value))
  }

  /** The address, given its last colon: the text after it may be an IPv4 address. */
  function AddressAt(value: string, at: int): Option<nat>
    requires 0 <= at < |value|
  {
    var tail := value[at + 1..];
    if '.' in tail then WithIpv4(Hextets(value[..at], 6), Ipv4Of(tail)) else Whole(Hextets(value, 8))
  }

  function WithIpv4(front: Option<seq<nat>>, v4: Option<nat>): Option<nat> {
    if front.None? || v4.None? then None
    else Some(Fold(front.value + [v4.value / 0x1_0000 % 0x1_0000, v4.value % 0x1_0000]))
  }

  function Whole(all: Option<seq<nat>>): Option<nat> {
    if all.None? then None else Some(Fold(all.value))
  }

  method ParseGroups(value: string, need: nat) returns (r: Option<seq<nat>>)
    ensures r == Hextets(value, need)
  {
    hide Split, Value, Groups;
    var groups := Groups(value, need);
    if groups == None { return None; }
    var nums: seq<nat> := [];
    for i := 0 to need
      invariant forall k | 0 <= k < i :: IsGroup(groups.value[k])
      invariant nums == Nums(groups.value[..i])
    {
      var group := groups.value[i];
      if !IsGroup(group) { return None; }
      nums := nums + [Value(group, 16)];
    }
    assert groups.value[..need] == groups.value;
    return Some(nums);
  }

  method ParseIPv6(host: string) returns (r: Option<nat>)
    ensures r == Ipv6Of(host)
  {
    hide Hextets, Ipv4Of, CoreOf, LastColon, Fold;
    var value := CoreOf(host);
    if ':' !in value { return None; }
    var lastColon := LastColon(value);
    var tail := value[lastColon + 1..];
    var v4: Option<nat> := None;
    if '.' in tail {
      v4 := ParseIPv4(tail);
      if v4 == None { return None; }
      value := value[..lastColon];
    }
    var need := if v4 == None then 8 else 6;
    var groups := ParseGroups(value, need);
    if groups == None { return None; }
    var nums := groups.value;
    if v4 != None { nums := nums + [v4.value / 0x1_0000 % 0x1_0000, v4.value % 0x1_0000]; }
    var out := FoldUp(nums);
    return Some(out);
  }

  method FoldUp(nums: seq<nat>) returns (out: nat)
    ensures out == Fold(nums)
  {
    out := 0;
    for i := 0 to |nums|
      invariant out == Fold(nums[..i])
    {
      assert nums[..i + 1][..i] == nums[..i];
      out := out * 0x1_0000 + nums[i];
    }
    assert nums[..|nums|] == nums;
  }

  // ---------------------------------------------------------------- expandIpv6

  predicate IsLineTerminator(c: char) {
    c == '\n' || c == '\r' || c == '\U{2028}' || c == '\U{2029}'
  }

  predicate HasLineTerminator(s: string) {
    exists c | c in s :: IsLineTerminator(c)
  }

  /** `replace(/^\[(.+)\]$/, "$1")`: the dot matches no line terminator, and at least one character. */
  function UnbracketPattern(s: string): string {
    if Bracketed(s) && Inner(s) != "" && !HasLineTerminator(Inner(s)) then Inner(s) else s
  }

  predicate IsHexGroup(h: string) {
    1 <= |h| <= 4 && AllDigits(h, 16)
  }

  /** `replace(/^0+(?=\w)/, "")` on a hexadecimal group. */
  function StripZeros(h: string): string {
    if |h| > 1 && h[0] == '0' then StripZeros(h[1..]) else h
  }

  function Canonical(groups: seq<string>): (texts: seq<string>)
    ensures |texts| == |groups| && forall i | 0 <= i < |texts| :: texts[i] == StripZeros(Lower(groups[i]))
  {
    seq(|groups|, i requires 0 <= i < |groups| => StripZeros(Lower(groups[i])))
  }

  function ExpandIpv6(ip: string): Option<seq<string>> {
    var raw := CutZone(UnbracketPattern(Trim(ip)));
    if ':' !in raw || '.' in raw then None
    else
      var halves := Split(raw, "::");
      if |halves| > 2 then None
      else
        var head := if halves[0] == "" then [] else Split(halves[0], ":");
        var tail := if |halves| == 2 && halves[1] != "" then Split(halves[1], ":") else [];
        if (exists h | h in head :: !IsHexGroup(h)) || (exists h | h in tail :: !IsHexGroup(h)) then None
        else if |halves| == 1 then (if |head| != 8 then None else Some(Canonical(head)))
        else if |head| + |tail| > 8 then None
        else Some(Canonical(head + Zeros(8 - |head| - |tail|) + tail))
  }

  // ---------------------------------------------------------------- the number behind the groups

  /** `(v >> 16k) & 0xffff`. */
  function Hextet(v: nat, k: nat): nat {
    if k == 0 then v % 0x1_0000 else Hextet(v / 0x1_0000, k - 1)
  }

  lemma {:induction false} HextetOfFold(nums: seq<nat>, i: nat)
    requires i < |nums| && forall k | 0 <= k < |nums| :: nums[k] < 0x1_0000
    ensures Hextet(Fold(nums), |nums| - 1 - i) == nums[i]
  {
    var front := nums[..|nums| - 1];
    assert Fold(nums) / 0x1_0000 == Fold(front) && Fold(nums) % 0x1_0000 == nums[|nums| - 1];
    if i < |front| { HextetOfFold(front, i); }
  }

  lemma GroupValue(g: string)
    requires IsGroup(g)
    ensures Value(g, 16) < 0x1_0000
  {
    ValueBound(g, 16);
    assert Power(16, 4) == 16 * Power(16, 3) && Power(16, 3) == 16 * Power(16, 2) && Power(16, 2) == 16 * Power(16, 1);
    PowerGrows(16, |g|, 4);
  }

  // ---------------------------------------------------------------- lower case and splitting

  function LowerAll(parts: seq<string>): (low: seq<string>)
    ensures |low| == |parts| && forall i | 0 <= i < |low| :: low[i] == Lower(parts[i])
  {
    seq(|parts|, i requires 0 <= i < |parts| => Lower(parts[i]))
  }

  predicate Caseless(sep: string) {
    forall c: char, i | 0 <= i < |sep| :: LowerChar(c) == sep[i] <==> c == sep[i]
  }

  lemma LowerPrefix(s: string, sep: string)
    requires Caseless(sep)
    ensures sep <= s <==> sep <= Lower(s)
  {
    if |sep| <= |s| {
      assert forall i | 0 <= i < |sep| :: (Lower(s)[i] == sep[i] <==> s[i] == sep[i]);
      assert sep <= s <==> forall i | 0 <= i < |sep| :: s[i] == sep[i];
      assert sep <= Lower(s) <==> forall i | 0 <= i < |sep| :: Lower(s)[i] == sep[i];
    }
  }

  lemma LowerPieces(c: char, rest: seq<string>)
    requires rest != []
    ensures LowerAll([[c] + rest[0]] + rest[1..]) == [[LowerChar(c)] + LowerAll(rest)[0]] + LowerAll(rest)[1..]
  {
    hide LowerChar;
    assert Lower([c] + rest[0]) == [LowerChar(c)] + Lower(rest[0]);
  }

  lemma {:induction false} LowerSplit(s: string, sep: string)
    requires sep != "" && Caseless(sep)
    ensures Split(Lower(s), sep) == LowerAll(Split(s, sep))
  {
    hide LowerChar, Caseless;
    LowerPrefix(s, sep);
    assert Lower("") == "";
    if sep <= s {
      assert Lower(s)[|sep|..] == Lower(s[|sep|..]);
      LowerSplit(s[|sep|..], sep);
    } else if s != "" {
      assert Lower(s)[1..] == Lower(s[1..]);
      LowerSplit(s[1..], sep);
      LowerPieces(s[0], Split(s[1..], sep));
    }
  }

  lemma {:induction false} LowerCutZone(s: string)
    ensures CutZone(Lower(s)) == Lower(CutZone(s))
  {
    if s != "" {
      assert Lower(s)[1..] == Lower(s[1..]);
      LowerCutZone(s[1..]);
      if s[0] != '%' { assert Lower(CutZone(s)) == [LowerChar(s[0])] + Lower(CutZone(s[1..])); }
    }
  }

  lemma LowerUnbracket(s: string)
    ensures Unbracket(Lower(s)) == Lower(Unbracket(s))
  {
    if Bracketed(s) { assert Inner(Lower(s)) == Lower(Inner(s)); }
  }

  lemma LowerGroup(h: string)
    ensures IsHexGroup(h) <==> IsGroup(Lower(h))
  {
    assert forall c: char :: Digit(LowerChar(c)) == Digit(c);
    assert forall c: char :: Digit(c) < 16 ==> IsDigitChar(LowerChar(c));
    var low := Lower(h);
    if AllDigits(h, 16) {
      forall c | c in low ensures Digit(c) < 16 && IsDigitChar(c) {
        var i :| 0 <= i < |low| && low[i] == c;
        assert h[i] in h;
      }
    }
    if AllDigits(low, 16) {
      forall c | c in h ensures Digit(c) < 16 {
        var i :| 0 <= i < |h| && h[i] == c;
        assert low[i] in low;
      }
    }
  }

  // ---------------------------------------------------------------- the two parsers agree

  /** What the two parsers look at, with the case of the text kept. */
  function Core(text: string): string {
    CutZone(Unbracket(Trim(text)))
  }

  /** `expandIpv6` keeps the brackets when a line terminator stands between them. */
  predicate BracketsKept(text: string) {
    Bracketed(Trim(text)) && HasLineTerminator(Inner(Trim(text)))
  }

  lemma CoreIsLower(text: string)
    ensures CoreOf(text) == Lower(Core(text))
  {
    LowerUnbracket(Trim(text));
    LowerCutZone(Unbracket(Trim(text)));
  }

  lemma MemberLower(s: string, c: char)
    requires c == ':' || c == '.'
    ensures c in s <==> c in Lower(s)
  {
    forall i | 0 <= i < |s| ensures s[i] == c <==> Lower(s)[i] == c {}
  }

  /** The groups a half holds, as `expandIpv6` reads it. */
  function Half(side: string): seq<string> {
    if side == "" then [] else Split(side, ":")
  }

  predicate AllHex(groups: seq<string>) {
    forall h | h in groups :: IsHexGroup(h)
  }

  predicate AllGroups(groups: seq<string>) {
    forall g | g in groups :: IsGroup(g)
  }

  /** One half gives the same groups to both parsers, up to case, and the same verdict. */
  lemma HalvesAgree(side: string)
    ensures Side(Lower(side)).Some? && AllGroups(Side(Lower(side)).value) <==> AllHex(Half(side))
    ensures Side(Lower(side)).Some? ==> Side(Lower(side)).value == LowerAll(Half(side))
  {
    hide Split, IsGroup, IsHexGroup;
    if side != "" {
      LowerSplit(side, ":");
      var parts := Split(side, ":");
      var low := LowerAll(parts);
      AllAgree(parts);
      if AllHex(parts) {
        forall g | g in low ensures g != "" {
          NotEmptyGroup(g);
          assert IsGroup(g);
        }
      }
    }
  }

  lemma NotEmptyGroup(g: string)
    ensures IsGroup(g) ==> g != ""
  {
  }

  lemma AllAgree(parts: seq<string>)
    ensures AllGroups(LowerAll(parts)) <==> AllHex(parts)
  {
    hide IsGroup, IsHexGroup;
    var low := LowerAll(parts);
    forall i | 0 <= i < |parts| ensures IsGroup(low[i]) <==> IsHexGroup(parts[i]) { LowerGroup(parts[i]); }
    if AllGroups(low) {
      forall h | h in parts ensures IsHexGroup(h) {
        var i :| 0 <= i < |parts| && parts[i] == h;
        assert low[i] in low;
      }
    }
    if AllHex(parts) {
      forall g | g in low ensures IsGroup(g) {
        var i :| 0 <= i < |low| && low[i] == g;
        assert parts[i] in parts;
      }
    }
  }

  /** The full list of groups that `expandIpv6` makes canonical. */
  function Expanded(core: string): Option<seq<string>> {
    var halves := Split(core, "::");
    if |halves| > 2 then None
    else
      var head, tail := Half(halves[0]), if |halves| == 2 then Half(halves[1]) else [];
      if !AllHex(head) || !AllHex(tail) then None
      else if |halves| == 1 then (if |head| != 8 then None else Some(head))
      else if |head| + |tail| > 8 then None
      else Some(head + Zeros(8 - |head| - |tail|) + tail)
  }

  lemma ExpandIsExpanded(ip: string)
    ensures var raw := CutZone(UnbracketPattern(Trim(ip)));
            ExpandIpv6(ip) == if ':' !in raw || '.' in raw || Expanded(raw).None? then None
              else Some(Canonical(Expanded(raw).value))
  {
    hide Split, IsHexGroup, Canonical, Trim;
  }

  lemma LowerConcat(a: seq<string>, b: seq<string>)
    ensures LowerAll(a + b) == LowerAll(a) + LowerAll(b)
  {
  }

  lemma LowerZeros(n: nat)
    ensures LowerAll(Zeros(n)) == Zeros(n) && AllGroups(Zeros(n))
  {
    assert Lower("0") == "0";
    assert forall g | g in Zeros(n) :: g == "0";
    assert IsGroup("0");
  }

  lemma GroupsAgree(core: string)
    ensures Groups(Lower(core), 8).Some? && AllGroups(Groups(Lower(core), 8).value) <==> Expanded(core).Some?
    ensures Expanded(core).Some? ==> Groups(Lower(core), 8) == Some(LowerAll(Expanded(core).value))
  {
    hide Split, IsGroup, IsHexGroup, Side, Half, Lower, Zeros;
    LowerSplit(core, "::");
    var halves := Split(core, "::");
    HalvesAgree(halves[0]);
    var head := Half(halves[0]);
    if |halves| == 2 {
      HalvesAgree(halves[1]);
      var tail := Half(halves[1]);
      if |head| + |tail| <= 8 {
        var z := Zeros(8 - |head| - |tail|);
        LowerZeros(|z|);
        LowerConcat(head, z);
        LowerConcat(head + z, tail);
        JoinedGroups(LowerAll(head), z, LowerAll(tail));
      }
    }
  }

  lemma JoinedGroups(a: seq<string>, b: seq<string>, c: seq<string>)
    ensures AllGroups(a + b + c) <==> AllGroups(a) && AllGroups(b) && AllGroups(c)
  {
    assert forall g :: g in a + b + c <==> g in a || g in b || g in c;
  }

  lemma {:induction false} StripZerosKeepsValue(h: string)
    requires h != "" && AllDigits(h, 16)
    ensures Value(StripZeros(h), 16) == Value(h, 16) && StripZeros(h) != ""
    ensures |StripZeros(h)| > 1 ==> StripZeros(h)[0] != '0'
    ensures forall c | c in StripZeros(h) :: c in h
  {
    if |h| > 1 && h[0] == '0' {
      StripZerosKeepsValue(h[1..]);
      LeadingZero(h[1..]);
      assert h == "0" + h[1..];
    }
  }

  lemma {:induction false} LeadingZero(s: string)
    ensures Value("0" + s, 16) == Value(s, 16)
  {
    var t := "0" + s;
    if s == "" {
      assert t[..0] == "" && Value(t[..0], 16) == 0;
    } else {
      LeadingZero(s[..|s| - 1]);
      assert t[..|t| - 1] == "0" + s[..|s| - 1];
    }
  }

  /** A canonical hextet is the lower-case hexadecimal text of its group's value. */
  lemma CanonicalText(h: string)
    requires IsHexGroup(h)
    ensures StripZeros(Lower(h)) == ToText(Value(Lower(h), 16), 16)
  {
    hide Value, StripZeros, Digit;
    LowerGroup(h);
    StripZerosKeepsValue(Lower(h));
    ValueRoundTrip(StripZeros(Lower(h)), 16);
  }

  /** The texts of the eight hextets of a 128-bit number. */
  function HextetTexts(v: nat, n: nat): (texts: seq<string>)
    requires n <= 8
    ensures |texts| == n && forall i | 0 <= i < n :: texts[i] == HextetText(v, 7 - i)
  {
    seq(n, i requires 0 <= i < n => HextetText(v, 7 - i))
  }

  function HextetText(v: nat, k: nat): string {
    ToText(Hextet(v, k), 16)
  }

  lemma CanonicalIsHextets(groups: seq<string>)
    requires |groups| == 8 && AllHex(groups)
    ensures Canonical(groups) == HextetTexts(Fold(Nums(LowerAll(groups))), 8)
  {
    hide IsHexGroup, IsGroup, Value, StripZeros, Fold;
    var low := LowerAll(groups);
    var nums := Nums(low);
    AllAgree(groups);
    forall i | 0 <= i < 8 ensures nums[i] < 0x1_0000 {
      assert low[i] in low;
      GroupValue(low[i]);
    }
    forall i | 0 <= i < 8 ensures Canonical(groups)[i] == HextetTexts(Fold(nums), 8)[i] {
      assert groups[i] in groups;
      CanonicalText(groups[i]);
      HextetOfFold(nums, i);
    }
  }

  lemma ExpandedShape(core: string)
    ensures Expanded(core).Some? ==> |Expanded(core).value| == 8 && AllHex(Expanded(core).value)
  {
    hide Split, IsHexGroup;
    var halves := Split(core, "::");
    if |halves| == 2 && Expanded(core).Some? {
      ZeroIsHex();
    }
  }

  lemma ZeroIsHex()
    ensures IsHexGroup("0")
  {
  }

  /** A text that begins with a bracket holds no valid first group. */
  lemma BracketIsNoGroup(raw: string)
    requires raw != "" && raw[0] == '['
    ensures Expanded(raw).None?
  {
    hide Split;
    FirstChar(raw, "::");
    var half := Split(raw, "::")[0];
    FirstChar(half, ":");
    var h := Split(half, ":")[0];
    assert h in Half(half) && h[0] in h && Digit('[') == 16;
  }

  lemma FirstChar(s: string, sep: string)
    requires s != "" && sep != "" && s[0] != sep[0]
    ensures Split(s, sep)[0] != "" && Split(s, sep)[0][0] == s[0]
  {
  }

  /** What `expandIpv6` makes of a text whose brackets are removed: it depends on the core alone. */
  lemma ExpandOfCore(text: string)
    ensures ExpandIpv6(text) ==
            var core := Core(text);
            if BracketsKept(text) || ':' !in core || '.' in core || Expanded(core).None? then None
            else Some(Canonical(Expanded(core).value))
  {
    hide Split, Trim, Expanded, Canonical, IsHexGroup, ExpandIpv6, CutZone;
    ExpandIsExpanded(text);
    var u := Trim(text);
    if BracketsKept(text) {
      CutZoneKeepsFirst(u);
      BracketIsNoGroup(CutZone(u));
    } else if Bracketed(u) && Inner(u) == "" {
      CutZoneKeepsFirst(u);
      BracketIsNoGroup(CutZone(u));
      CutZoneOfEmpty();
    }
  }

  lemma CutZoneKeepsFirst(u: string)
    requires u != "" && u[0] != '%'
    ensures CutZone(u) != "" && CutZone(u)[0] == u[0]
  {
  }

  lemma CutZoneOfEmpty()
    ensures CutZone("") == ""
  {
  }

  lemma ParseOfCore(text: string)
    requires ':' in Core(text) && '.' !in Core(text)
    ensures Ipv6Of(text) == Whole(Hextets(Lower(Core(text)), 8))
  {
    hide Hextets, Core, CoreOf, LastColon, Fold;
    CoreIsLower(text);
    MemberLower(Core(text), ':');
    MemberLower(Core(text), '.');
    var value := CoreOf(text);
    assert forall c | c in value[LastColon(value) + 1..] :: c in value;
  }

  lemma NoColonNoAddress(text: string)
    requires ':' !in Core(text)
    ensures Ipv6Of(text).None?
  {
    CoreIsLower(text);
    MemberLower(Core(text), ':');
  }

  /**
   * The two parsers accept the same texts, apart from two families: a dotted tail, which only
   * `parseIPv6` reads, and brackets around a line terminator, which only `parseIPv6` removes. And what
   * `expandIpv6` returns are the eight base-65536 digits of what `parseIPv6` returns.
   */
  lemma ParsersAgree(text: string)
    ensures ExpandIpv6(text).Some? <==> Ipv6Of(text).Some? && '.' !in Core(text) && !BracketsKept(text)
    ensures ExpandIpv6(text).Some? ==> ExpandIpv6(text).value == HextetTexts(Ipv6Of(text).value, 8)
  {
    hide ExpandIpv6, Ipv6Of, Expanded, Canonical, BracketsKept, Core, Lower, Fold, IsHexGroup, IsGroup, Groups;
    ExpandOfCore(text);
    var core := Core(text);
    if ':' !in core {
      NoColonNoAddress(text);
    } else if '.' !in core {
      ParseOfCore(text);
      GroupsAgree(core);
      ExpandedShape(core);
      if Expanded(core).Some? { CanonicalIsHextets(Expanded(core).value); }
    }
  }
}
