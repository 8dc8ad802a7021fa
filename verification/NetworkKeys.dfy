/**
 * demos/byok-playground/src/worker/budget.ts: the network key of an address; and its sibling in
 * demos/apollo-desk/src/worker/gates.ts.
 */
module NetworkKeys {
  import opened JsStrings
  import opened Digits
  import opened Options
  import opened Ipv4
  import opened Ipv6

  const TWO_64 := 0x1_0000_0000_0000_0000

  function PrefixText(ip: nat, groups: nat): string
    requires groups <= 8
  {
    Join(HextetTexts(ip, groups), ":") + "::"
  }

  method PrefixGroups(ip: nat, groups: nat) returns (s: string)
    requires groups <= 8
    ensures s == PrefixText(ip, groups)
  {
    var parts: seq<string> := [];
    for i := 0 to groups
      invariant parts == HextetTexts(ip, i)
    {
      parts := parts + [HextetText(ip, 7 - i)];
    }
    s := Join(parts, ":") + "::";
  }

  /** The address with its lower 64 bits cleared. */
  function Subnet(v6: nat): nat {
    v6 / TWO_64 * TWO_64
  }

  /** An IPv6 address that carries an IPv4 address. */
  predicate Mapped(v6: nat) {
    v6 / 0x1_0000_0000 == 0xffff
  }

  function Ipv6Key(v6: nat): string {
    if Mapped(v6) then Dotted(v6 % 0x1_0000_0000) else PrefixText(Subnet(v6), 4)
  }

  /** `networkKey` of the BYOK Worker: dotted IPv4, or the /64 of an IPv6 address. */
  function NetworkKey(ip: string): string {
    var trimmed := Trim(ip);
    if trimmed == "" || trimmed == "local" then "local"
    else match Ipv4Of(trimmed)
      case Some(v4) => Dotted(v4)
      case None =>
        match Ipv6Of(trimmed)
        case None => "local"
        case Some(v6) => Ipv6Key(v6)
  }

  // ---------------------------------------------------------------- what a key looks like

  lemma DottedIsPlain(n: nat)
    ensures var s := Dotted(n); Trim(s) == s && s != "" && s != "local" && ':' !in s
  {
    hide Dotted, Trim;
    DottedSplits(n);
    DottedChars(n);
    var s := Dotted(n);
    assert s[0] in s && s[|s| - 1] in s;
    TrimTrims(s);
  }

  lemma HextetTextIsGroup(v: nat, n: nat)
    requires n <= 8
    ensures AllGroups(HextetTexts(v, n)) && forall g | g in HextetTexts(v, n) :: ':' !in g
  {
    forall i | 0 <= i < n ensures IsGroup(HextetTexts(v, n)[i]) && ':' !in HextetTexts(v, n)[i] {
      var d := Hextet(v, 7 - i);
      HextetBound(v, 7 - i);
      TextRoundTrip(d, 16);
      assert Power(16, 4) == 16 * Power(16, 3);
      assert Power(16, 3) == 16 * Power(16, 2) && Power(16, 2) == 16 * Power(16, 1);
      TextLength(d, 16, 4);
    }
  }

  lemma {:induction false} HextetBound(v: nat, k: nat)
    ensures Hextet(v, k) < 0x1_0000
  {
    if k > 0 { HextetBound(v / 0x1_0000, k - 1); }
  }

  /** Non-empty groups joined by single colons hold no `::`, not even where the last one meets a `::`. */
  lemma {:induction false} NoDoubleColon(groups: seq<string>, i: nat)
    requires groups != [] && (forall g | g in groups :: g != "" && ':' !in g) && i < |Join(groups, ":")|
    ensures !OccursAt(Join(groups, ":") + "::", "::", i)
  {
    var g, x := groups[0], Join(groups, ":") + "::";
    assert g in groups;
    if i < |g| {
      assert x[i] == g[i] && g[i] in g;
      if i + 2 <= |x| { assert x[i..i + 2][0] == x[i]; }
    } else {
      var y := Join(groups[1..], ":") + "::";
      assert x == g + ":" + y;
      if i == |g| {
        assert groups[1] in groups && Join(groups[1..], ":")[0] == groups[1][0] && groups[1][0] in groups[1];
        assert x[i + 1] == y[0];
        if i + 2 <= |x| { assert x[i..i + 2][1] == x[i + 1]; }
      } else {
        assert forall h | h in groups[1..] :: h in groups;
        var k := i - |g| - 1;
        NoDoubleColon(groups[1..], k);
        if i + 2 <= |x| { assert x[i..i + 2] == y[k..k + 2]; }
      }
    }
  }

  lemma JoinNotEmpty(groups: seq<string>, glue: string)
    requires groups != [] && groups[0] != ""
    ensures Join(groups, glue) != "" && Join(groups, glue)[0] == groups[0][0]
  {
  }

  lemma PrefixChars(v: nat)
    ensures var s := PrefixText(v, 4);
            |s| > 2 && IsDigitChar(s[0]) && s[|s| - 1] == ':' && forall c | c in s :: c == ':' || IsDigitChar(c)
  {
    hide IsDigitChar;
    var texts := HextetTexts(v, 4);
    HextetTextIsGroup(v, 4);
    GroupsNotEmpty(texts);
    JoinNotEmpty(texts, ":");
    var j := Join(texts, ":");
    assert texts[0] in texts && texts[0][0] in texts[0];
    assert IsGroup(texts[0]);
    forall c | c in j ensures c == ':' || IsDigitChar(c) {
      JoinChars(texts, ":", c);
      if c != ':' {
        var p :| p in texts && c in p;
        assert IsGroup(p);
      }
    }
  }

  lemma GroupsNotEmpty(groups: seq<string>)
    requires AllGroups(groups)
    ensures forall g | g in groups :: g != ""
  {
    forall g | g in groups ensures g != "" { assert IsGroup(g); }
  }

  lemma {:induction false} LowerIdle(s: string)
    requires forall c | c in s :: LowerChar(c) == c
    ensures Lower(s) == s
  {
    assert forall i | 0 <= i < |s| :: s[i] in s;
  }

  lemma {:induction false} CutZoneIdle(s: string)
    requires '%' !in s
    ensures CutZone(s) == s
  {
    if s != "" { CutZoneIdle(s[1..]); }
  }

  /** A prefix key is already in the form the IPv6 parser works on. */
  lemma PrefixIsCore(v: nat)
    ensures var s := PrefixText(v, 4); Trim(s) == s && CoreOf(s) == s && ':' in s && s != "" && s != "local"
    ensures var s := PrefixText(v, 4); LastColon(s) == |s| - 1
  {
    hide PrefixText, Trim, Lower, CutZone;
    PrefixChars(v);
    var s := PrefixText(v, 4);
    TrimTrims(s);
    LowerIdle(s);
    CutZoneIdle(s);
  }

  lemma PrefixGroupsSplit(v: nat)
    ensures Groups(PrefixText(v, 4), 8) == Some(HextetTexts(v, 4) + Zeros(4))
  {
    hide Split, Join, HextetTexts;
    var texts := HextetTexts(v, 4);
    HextetTextIsGroup(v, 4);
    GroupsNotEmpty(texts);
    var j := Join(texts, ":");
    forall i | 0 <= i < |j| ensures !OccursAt(j + "::", "::", i) { NoDoubleColon(texts, i); }
    SplitAtFirst(j, "::", "");
    assert j + "::" + "" == PrefixText(v, 4);
    assert !Contains("", "::");
    SplitWithout("", "::");
    assert Split(PrefixText(v, 4), "::") == [j, ""];
    JoinThenSplit(texts, ':');
    JoinNotEmpty(texts, ":");
    assert texts + Zeros(4) + [] == texts + Zeros(4);
  }

  function TopHextets(v: nat): seq<nat> {
    [Hextet(v, 7), Hextet(v, 6), Hextet(v, 5), Hextet(v, 4)]
  }

  lemma PrefixHextets(v: nat)
    ensures Hextets(PrefixText(v, 4), 8) == Some(TopHextets(v) + [0, 0, 0, 0])
  {
    hide PrefixText, Groups, IsGroup, Hextet, Value;
    PrefixGroupsSplit(v);
    var texts, groups := HextetTexts(v, 4), HextetTexts(v, 4) + Zeros(4);
    HextetTextIsGroup(v, 4);
    ZeroGroup();
    assert forall g | g in groups :: g in texts || g == "0";
    forall i | 0 <= i < 8 ensures Nums(groups)[i] == (TopHextets(v) + [0, 0, 0, 0])[i] {
      if i < 4 { TextRoundTrip(Hextet(v, 7 - i), 16); }
    }
    assert Nums(groups) == TopHextets(v) + [0, 0, 0, 0];
  }

  lemma ZeroGroup()
    ensures IsGroup("0") && Value("0", 16) == 0
  {
    assert "0"[..0] == "";
  }

  lemma FoldSnoc(nums: seq<nat>, x: nat)
    ensures Fold(nums + [x]) == Fold(nums) * 0x1_0000 + x
  {
    assert (nums + [x])[..|nums|] == nums;
  }

  lemma FoldOfTop(v: nat)
    requires v < TWO_64 * TWO_64 && v % TWO_64 == 0
    ensures Fold(TopHextets(v) + [0, 0, 0, 0]) == v
  {
    hide Fold, TopHextets;
    HextetsOfTop(v);
    var w := v / TWO_64;
    FoldEight(w / 0x1_0000_0000_0000, w / 0x1_0000_0000 % 0x1_0000, w / 0x1_0000 % 0x1_0000, w % 0x1_0000);
    FourDigits(w);
  }

  lemma FourDigits(w: nat)
    ensures ((w / 0x1_0000_0000_0000 * 0x1_0000 + w / 0x1_0000_0000 % 0x1_0000) * 0x1_0000
            + w / 0x1_0000 % 0x1_0000) * 0x1_0000
            + w % 0x1_0000 == w
  {
    var w1 := w / 0x1_0000;
    var w2 := w1 / 0x1_0000;
    assert w2 == w / 0x1_0000_0000 && w2 / 0x1_0000 == w / 0x1_0000_0000_0000;
  }

  lemma HextetsOfTop(v: nat)
    requires v < TWO_64 * TWO_64
    ensures var w := v / TWO_64;
            TopHextets(v) ==
            [w / 0x1_0000_0000_0000, w / 0x1_0000_0000 % 0x1_0000, w / 0x1_0000 % 0x1_0000, w % 0x1_0000]
  {
    hide Hextet;
    HextetAbove(v, 0);
    HextetAbove(v, 1);
    HextetAbove(v, 2);
    HextetAbove(v, 3);
    HextetLow(v / TWO_64);
  }

  lemma HextetAbove(v: nat, k: nat)
    ensures Hextet(v, k + 4) == Hextet(v / TWO_64, k)
  {
    var v1 := v / 0x1_0000;
    var v2 := v1 / 0x1_0000;
    var v3 := v2 / 0x1_0000;
    assert Hextet(v, k + 4) == Hextet(v1, k + 3);
    assert Hextet(v1, k + 3) == Hextet(v2, k + 2);
    assert Hextet(v2, k + 2) == Hextet(v3, k + 1);
    assert v3 / 0x1_0000 == v / TWO_64;
  }

  lemma HextetLow(w: nat)
    requires w < TWO_64
    ensures Hextet(w, 0) == w % 0x1_0000 && Hextet(w, 1) == w / 0x1_0000 % 0x1_0000
    ensures Hextet(w, 2) == w / 0x1_0000_0000 % 0x1_0000 && Hextet(w, 3) == w / 0x1_0000_0000_0000
  {
    hide Hextet;
    var w1 := w / 0x1_0000;
    var w2 := w1 / 0x1_0000;
    HextetStep(w, 0);
    HextetStep(w, 1);
    HextetStep(w, 2);
    HextetStep(w1, 0);
    HextetStep(w1, 1);
    HextetStep(w2, 0);
    HextetZero(w);
    HextetZero(w1);
    HextetZero(w2);
    HextetZero(w2 / 0x1_0000);
    assert w2 == w / 0x1_0000_0000;
    assert w2 / 0x1_0000 == w / 0x1_0000_0000_0000 < 0x1_0000;
  }

  lemma HextetStep(v: nat, k: nat)
    ensures Hextet(v, k + 1) == Hextet(v / 0x1_0000, k)
  {
  }

  lemma HextetZero(v: nat)
    ensures Hextet(v, 0) == v % 0x1_0000
  {
  }

  lemma FoldEight(a: nat, b: nat, c: nat, d: nat)
    ensures Fold([a, b, c, d] + [0, 0, 0, 0]) == (((a * 0x1_0000 + b) * 0x1_0000 + c) * 0x1_0000 + d) * TWO_64
  {
    hide Fold;
    FoldOfNothing();
    FoldSnoc([], a);
    FoldSnoc([a], b);
    FoldSnoc([a, b], c);
    FoldSnoc([a, b, c], d);
    FoldSnoc([a, b, c, d], 0);
    FoldSnoc([a, b, c, d, 0], 0);
    FoldSnoc([a, b, c, d, 0, 0], 0);
    FoldSnoc([a, b, c, d, 0, 0, 0], 0);
    assert [] + [a] == [a] && [a] + [b] == [a, b] && [a, b] + [c] == [a, b, c] && [a, b, c] + [d] == [a, b, c, d];
    assert [a, b, c, d] + [0] == [a, b, c, d, 0] && [a, b, c, d, 0] + [0] == [a, b, c, d, 0, 0];
    assert [a, b, c, d, 0, 0] + [0] == [a, b, c, d, 0, 0, 0];
    assert [a, b, c, d, 0, 0, 0] + [0] == [a, b, c, d] + [0, 0, 0, 0];
  }

  lemma FoldOfNothing()
    ensures Fold([]) == 0
  {
  }

  /** Printing the /64 of an address and parsing the key gives the /64 back. */
  lemma PrefixRoundTrip(v: nat)
    requires v < TWO_64 * TWO_64 && v % TWO_64 == 0
    ensures Ipv6Of(PrefixText(v, 4)) == Some(v)
    ensures Ipv4Of(PrefixText(v, 4)).None?
  {
    hide PrefixText, CoreOf, Hextets, Fold;
    PrefixIsCore(v);
    PrefixHextets(v);
    FoldOfTop(v);
    PrefixHost(v);
  }

  lemma PrefixHost(v: nat)
    ensures Host(PrefixText(v, 4)) == PrefixText(v, 4)
  {
    PrefixChars(v);
  }

  lemma Ipv6InRange(host: string)
    ensures Ipv6Of(host).Some? ==> Ipv6Of(host).value < TWO_64 * TWO_64
  {
    hide CoreOf, Hextets, LastColon, Ipv4Of, Fold;
    if Ipv6Of(host).Some? {
      var value := CoreOf(host);
      var at := LastColon(value);
      var tail := value[at + 1..];
      if '.' in tail {
        var front, v4 := Hextets(value[..at], 6).value, Ipv4Of(tail).value;
        HextetsBound(value[..at], 6);
        var nums := front + [v4 / 0x1_0000 % 0x1_0000, v4 % 0x1_0000];
        FoldBound(nums, 8);
      } else {
        HextetsBound(value, 8);
        FoldBound(Hextets(value, 8).value, 8);
      }
      assert Power(0x1_0000, 2) == 0x1_0000 * Power(0x1_0000, 1);
      PowerSplits(0x1_0000, 2, 2);
      PowerSplits(0x1_0000, 4, 4);
    }
  }

  lemma HextetsBound(value: string, need: nat)
    ensures Hextets(value, need).Some? ==> forall n | n in Hextets(value, need).value :: n < 0x1_0000
  {
    hide Groups, IsGroup, Value;
    if Hextets(value, need).Some? {
      var groups := Groups(value, need).value;
      forall i | 0 <= i < |groups| ensures Nums(groups)[i] < 0x1_0000 {
        assert groups[i] in groups;
        GroupValue(groups[i]);
      }
    }
  }

  lemma {:induction false} FoldBound(nums: seq<nat>, k: nat)
    requires |nums| == k && forall n | n in nums :: n < 0x1_0000
    ensures Fold(nums) < Power(0x1_0000, k)
  {
    if k > 0 {
      var front := nums[..k - 1];
      assert forall n | n in front :: n in nums;
      FoldBound(front, k - 1);
      assert nums[k - 1] in nums;
      BelowNext(Fold(front), nums[k - 1], 0x1_0000, Power(0x1_0000, k - 1));
    }
  }

  // ---------------------------------------------------------------- the theorems about keys

  lemma SubnetOf(v: nat)
    requires v < TWO_64 * TWO_64
    ensures var t := Subnet(v); t % TWO_64 == 0 && t <= v && t / TWO_64 == v / TWO_64 && !Mapped(t) && Subnet(t) == t
  {
  }

  /** Every IPv6 text is keyed as such: the IPv4 parser, which is asked first, refuses it. */
  lemma Ipv6TextKey(ip: string)
    ensures Ipv6Of(Trim(ip)).Some? ==> NetworkKey(ip) == Ipv6Key(Ipv6Of(Trim(ip)).value)
  {
    hide Trim, Ipv6Key, Ipv6Of, Ipv4Of, Dotted;
    ColonMeansNoIpv4(Trim(ip));
  }

  lemma ColonMeansNoIpv4(t: string)
    ensures Ipv6Of(t).Some? ==> Ipv4Of(t).None? && t != "" && t != "local"
  {
    hide Split, Hextets, Lower, Ipv6Of, CoreOf, Host;
    Ipv6HasColon(t);
    if Ipv6Of(t).Some? {
      CoreWithin(t, ':');
      var i :| 0 <= i < |t| && t[i] == ':';
      HostKeeps(t, i);
      assert forall j | 0 <= j < |"local"| :: "local"[j] != ':';
    }
  }

  lemma Ipv6HasColon(t: string)
    ensures Ipv6Of(t).Some? ==> ':' in CoreOf(t)
  {
    hide CoreOf, AddressAt;
  }

  lemma HostKeeps(t: string, i: nat)
    requires i < |t| && t[i] == ':'
    ensures ':' in Host(t)
  {
    assert Host(t)[i] == t[i];
  }

  lemma CoreWithin(t: string, c: char)
    requires c == ':' && c in CoreOf(t)
    ensures c in t
  {
    hide Trim, Unbracket, CutZone, Lower;
    CoreIsLower(t);
    MemberLower(Core(t), c);
    var u := Trim(t);
    assert c in Unbracket(u);
    UnbracketWithin(u, c);
    TrimWithin(t, c);
  }

  lemma UnbracketWithin(s: string, c: char)
    ensures c in Unbracket(s) ==> c in s
  {
  }

  lemma {:induction false} TrimStartWithin(s: string, c: char)
    ensures c in TrimStart(s) ==> c in s
  {
    if s != "" && IsSpace(s[0]) { TrimStartWithin(s[1..], c); }
  }

  lemma TrimWithin(s: string, c: char)
    ensures c in Trim(s) ==> c in s
  {
    TrimStartWithin(s, c);
    TrimEndEnds(TrimStart(s));
  }

  /** Keying a key changes nothing, for every string. */
  lemma KeyIsIdempotent(ip: string)
    ensures NetworkKey(NetworkKey(ip)) == NetworkKey(ip)
  {
    hide Trim, Dotted, Ipv6Of, Ipv4Of, Ipv6Key;
    var t := Trim(ip);
    LocalIsLocal();
    if Ipv4Of(t).Some? {
      Ipv4InRange(t);
      DottedKey(Ipv4Of(t).value);
    } else if Ipv6Of(t).Some? {
      Ipv6InRange(t);
      Ipv6KeyKept(Ipv6Of(t).value);
    }
  }

  lemma LocalIsLocal()
    ensures NetworkKey("local") == "local"
  {
    hide Ipv6Of, Ipv4Of;
    TrimTrims("local");
  }

  lemma DottedKey(n: nat)
    requires n < 0x1_0000_0000
    ensures NetworkKey(Dotted(n)) == Dotted(n)
  {
    hide Trim, Dotted, Ipv4Of, Ipv6Of;
    DottedIsPlain(n);
    Ipv4RoundTrip(n);
  }

  lemma Ipv6KeyKept(v: nat)
    requires v < TWO_64 * TWO_64
    ensures NetworkKey(Ipv6Key(v)) == Ipv6Key(v)
  {
    hide Trim, PrefixText, Dotted, Ipv4Of, Ipv6Of, Subnet, Mapped;
    if Mapped(v) {
      DottedKey(v % 0x1_0000_0000);
    } else {
      SubnetOf(v);
      PrefixIsCore(Subnet(v));
      PrefixRoundTrip(Subnet(v));
    }
  }

  /** An IPv6 text whose address carries no IPv4 address. */
  predicate Unmapped(ip: string) {
    Ipv6Of(Trim(ip)).Some? && !Mapped(Ipv6Of(Trim(ip)).value)
  }

  /** Two IPv6 texts that carry no IPv4 address share a key exactly when their top 64 bits agree. */
  lemma SameKeyIffSameSubnet(a: string, b: string)
    ensures Unmapped(a) && Unmapped(b) ==>
              (NetworkKey(a) == NetworkKey(b) <==> Ipv6Of(Trim(a)).value / TWO_64 == Ipv6Of(Trim(b)).value / TWO_64)
  {
    hide Trim, Ipv6Of, NetworkKey, Ipv6Key, Mapped;
    Ipv6TextKey(a);
    Ipv6TextKey(b);
    Ipv6InRange(Trim(a));
    Ipv6InRange(Trim(b));
    if Unmapped(a) && Unmapped(b) { KeysOfSubnets(Ipv6Of(Trim(a)).value, Ipv6Of(Trim(b)).value); }
  }

  lemma KeysOfSubnets(v: nat, w: nat)
    requires v < TWO_64 * TWO_64 && w < TWO_64 * TWO_64 && !Mapped(v) && !Mapped(w)
    ensures Ipv6Key(v) == Ipv6Key(w) <==> v / TWO_64 == w / TWO_64
  {
    hide PrefixText, Ipv6Of, Ipv4Of;
    SubnetOf(v);
    SubnetOf(w);
    PrefixRoundTrip(Subnet(v));
    PrefixRoundTrip(Subnet(w));
  }

  /** A mapped address has the key of the IPv4 address it carries. */
  lemma MappedKeyIsIpv4Key(ip: string)
    ensures Ipv6Of(Trim(ip)).Some? && Mapped(Ipv6Of(Trim(ip)).value) ==>
              var v4 := Ipv6Of(Trim(ip)).value % 0x1_0000_0000;
              NetworkKey(ip) == Dotted(v4) == NetworkKey(Dotted(v4)) && Ipv4Of(Dotted(v4)) == Some(v4)
  {
    hide Trim, Ipv6Of, Ipv4Of, Mapped, NetworkKey, Dotted;
    Ipv6TextKey(ip);
    if Ipv6Of(Trim(ip)).Some? {
      var v4 := Ipv6Of(Trim(ip)).value % 0x1_0000_0000;
      DottedKey(v4);
      Ipv4RoundTrip(v4);
    }
  }

  /** Keys of IPv4 addresses, of IPv6 subnets and of everything else never collide. */
  lemma KeyFormsAreApart(n: nat, v: nat)
    ensures Dotted(n) != PrefixText(v, 4) && Dotted(n) != "local" && PrefixText(v, 4) != "local"
  {
    hide Dotted, PrefixText, Trim, CoreOf;
    DottedIsPlain(n);
    PrefixIsCore(v);
  }

  // ---------------------------------------------------------------- the desk's own network key

  /** One to three decimal digits, four times, with dots between. */
  predicate DottedQuad(s: string) {
    var parts := Split(s, ".");
    |parts| == 4 && forall p | p in parts :: 1 <= |p| <= 3 && AllDigits(p, 10)
  }

  /** `networkKey` of the Apollo Worker: mapped and other texts as they are, IPv6 as four hextets. */
  function DeskKey(ip: string): string {
    var raw := UnbracketPattern(Trim(ip));
    if raw == "" then "local"
    else if |raw| > 7 && Lower(raw[..7]) == "::ffff:" && DottedQuad(raw[7..]) then raw[7..]
    else match ExpandIpv6(raw)
      case None => raw
      case Some(parts) => Join(parts[..if |parts| < 4 then |parts| else 4], ":")
  }

  predicate HexOrColon(s: string) {
    forall c | c in s :: c == ':' || Digit(c) < 16
  }

  lemma {:induction false} SplitChars(s: string, sep: string, c: char)
    requires sep != "" && c in s
    ensures c in sep || exists p | p in Split(s, sep) :: c in p
  {
    SplitThenJoin(s, sep);
    JoinChars(Split(s, sep), sep, c);
  }

  /** Only hexadecimal digits and colons can expand. */
  lemma ExpandedChars(core: string)
    requires Expanded(core).Some?
    ensures HexOrColon(core)
  {
    hide Split;
    forall c | c in core ensures c == ':' || Digit(c) < 16 {
      SplitChars(core, "::", c);
      if c != ':' {
        var half :| half in Split(core, "::") && c in half;
        SplitChars(half, ":", c);
        var g :| g in Split(half, ":") && c in g;
        assert g in Half(half);
        assert half == Split(core, "::")[0] || half == Split(core, "::")[1];
        assert IsHexGroup(g);
      }
    }
  }

  lemma {:induction false} TrimEndReaches(core: string, rest: string)
    requires core != "" && !IsSpace(core[|core| - 1])
    ensures exists kept :: kept <= rest && TrimEnd(core + rest) == core + kept
  {
    if rest == "" {
      assert core + rest == core + "";
    } else if IsSpace(rest[|rest| - 1]) {
      var short := rest[..|rest| - 1];
      assert (core + rest)[..|core + rest| - 1] == core + short;
      TrimEndReaches(core, short);
      var kept :| kept <= short && TrimEnd(core + short) == core + kept;
      assert kept <= rest;
    }
  }

  lemma {:induction false} CutZoneAt(core: string, rest: string)
    requires '%' !in core && (rest == "" || rest[0] == '%')
    ensures CutZone(core + rest) == core
  {
    if core == "" {
      assert core + rest == rest;
    } else {
      assert (core + rest)[1..] == core[1..] + rest;
      CutZoneAt(core[1..], rest);
    }
  }

  lemma {:induction false} ZoneIsCut(s: string)
    ensures var rest := s[|CutZone(s)|..]; rest == "" || rest[0] == '%'
  {
    if s != "" && s[0] != '%' {
      ZoneIsCut(s[1..]);
      assert s[|CutZone(s)|..] == s[1..][|CutZone(s[1..])|..];
    }
  }

  /** A text with its brackets removed is read like the text itself. */
  lemma UnbracketedExpandsAlike(ip: string)
    requires ExpandIpv6(ip).Some?
    ensures ExpandIpv6(UnbracketPattern(Trim(ip))) == ExpandIpv6(ip)
    ensures UnbracketPattern(Trim(ip)) != "" && '.' !in Core(ip) && Core(ip) == CutZone(UnbracketPattern(Trim(ip)))
  {
    hide Expanded, Canonical, ExpandIpv6, CutZone, Lower, Trim;
    ExpandOfCore(ip);
    var raw, core := UnbracketPattern(Trim(ip)), Core(ip);
    assert raw == Unbracket(Trim(ip)) by { CutZoneOfEmpty(); }
    ExpandedChars(core);
    CoreOfRaw(raw, core);
    ExpandOfCore(raw);
  }

  lemma CoreOfRaw(raw: string, core: string)
    requires core == CutZone(raw) && ':' in core && HexOrColon(core)
    ensures Core(raw) == core && !BracketsKept(raw)
  {
    hide CutZone;
    ZoneIsCut(raw);
    var rest := raw[|core|..];
    assert raw == core + rest;
    assert core[0] in core && core[|core| - 1] in core;
    assert TrimStart(raw) == raw;
    TrimEndReaches(core, rest);
    var kept :| kept <= rest && TrimEnd(core + rest) == core + kept;
    assert kept == "" || kept[0] == '%';
    assert (core + kept)[0] != '[';
    CutZoneAt(core, kept);
  }

  lemma {:induction false} QuadHasDot(s: string)
    ensures DottedQuad(s) ==> '.' in s
  {
    if '.' !in s {
      forall i ensures !OccursAt(s, ".", i) {
        if 0 <= i < |s| { OccursChar(s, '.', i); }
      }
      SplitWithout(s, ".");
    }
  }

  /** A mapped address in dotted form is no text that `expandIpv6` accepts. */
  lemma NotDottedQuad(raw: string)
    requires |raw| > 7 && Lower(raw[..7]) == "::ffff:" && DottedQuad(raw[7..])
    ensures '.' in CutZone(raw)
  {
    hide DottedQuad, CutZone;
    QuadHasDot(raw[7..]);
    QuadHasNoZone(raw[7..]);
    var head, quad := raw[..7], raw[7..];
    assert raw == head + quad;
    forall i | 0 <= i < 7 ensures head[i] != '%' { assert Lower(head)[i] == "::ffff:"[i]; }
    CutZoneIdle(raw);
  }

  lemma QuadHasNoZone(s: string)
    ensures DottedQuad(s) ==> '%' !in s
  {
    hide Split;
    if DottedQuad(s) && '%' in s { SplitChars(s, ".", '%'); }
  }

  lemma SubnetHextets(v: nat)
    ensures HextetTexts(v, 8)[..4] == HextetTexts(Subnet(v), 4)
  {
    hide HextetText;
    forall i | 0 <= i < 4 ensures HextetTexts(v, 8)[i] == HextetTexts(Subnet(v), 4)[i] {
      HextetAbove(v, 3 - i);
      HextetAbove(Subnet(v), 3 - i);
      SameHextet(v, Subnet(v), 7 - i);
    }
  }

  lemma SameHextet(v: nat, w: nat, k: nat)
    requires Hextet(v, k) == Hextet(w, k)
    ensures HextetText(v, k) == HextetText(w, k)
  {
  }

  /**
   * The two Workers, with two parsers and two printers, give an IPv6 text the same network: the BYOK key
   * is the desk's key followed by `::`.
   */
  lemma WorkersAgreeOnNetwork(ip: string)
    ensures ExpandIpv6(ip).Some? && Unmapped(ip) ==> NetworkKey(ip) == DeskKey(ip) + "::"
  {
    hide Trim, Ipv6Of, ExpandIpv6, HextetTexts, DeskKey, NetworkKey, Mapped, Core, BracketsKept;
    TrimmedParsesAlike(ip);
    ParsersAgree(ip);
    Ipv6TextKey(ip);
    if ExpandIpv6(ip).Some? && Unmapped(ip) {
      DeskKeyOfIpv6(ip);
      SubnetHextets(Ipv6Of(ip).value);
    }
  }

  lemma DeskKeyOfIpv6(ip: string)
    requires ExpandIpv6(ip).Some? && |ExpandIpv6(ip).value| == 8
    ensures DeskKey(ip) == Join(ExpandIpv6(ip).value[..4], ":")
  {
    hide Trim, ExpandIpv6, CutZone, Lower, DottedQuad, UnbracketPattern, Join, Core;
    UnbracketedExpandsAlike(ip);
    var raw := UnbracketPattern(Trim(ip));
    if |raw| > 7 && Lower(raw[..7]) == "::ffff:" && DottedQuad(raw[7..]) { NotDottedQuad(raw); }
  }

  lemma TrimmedParsesAlike(ip: string)
    ensures Ipv6Of(Trim(ip)) == Ipv6Of(ip)
  {
    hide AddressAt, Trim;
    TrimTrims(ip);
    TrimTrims(Trim(ip));
  }
}
