/**
 * demos/byok-playground/src/worker/ssrf.ts and budget.ts, demos/apollo-desk/src/worker/gates.ts: which number
 * and which key a written address gets, form by form, told by the texts alone.
 */
module AddressTexts {
  import opened JsStrings
  import opened Digits
  import opened Options
  import opened Ipv4
  import opened Ipv6
  import opened NetworkKeys

  // ---------------------------------------------------------------- one part of an IPv4 text

  lemma {:induction false} LeadingZeroKeeps(s: string, base: nat)
    requires 2 <= base <= 16
    ensures Value("0" + s, base) == Value(s, base)
  {
    var t := "0" + s;
    if s == "" {
      assert t[..0] == "" && Value(t[..0], base) == 0;
    } else {
      LeadingZeroKeeps(s[..|s| - 1], base);
      assert t[..|t| - 1] == "0" + s[..|s| - 1];
    }
  }

  lemma Powers()
    ensures Power(10, 10) >= 0x1_0000_0000 && Power(8, 11) >= 0x1_0000_0000 && Power(16, 8) == 0x1_0000_0000
  {
    assert Power(10, 5) == 10_0000 && Power(8, 5) == 32768 && Power(8, 6) == 26_2144 && Power(16, 4) == 0x1_0000;
    PowerSplits(10, 5, 5);
    PowerSplits(8, 5, 6);
    PowerSplits(16, 4, 4);
  }

  lemma DigitsBelow(s: string, base: nat, wider: nat)
    requires AllDigits(s, base) && base <= wider
    ensures AllDigits(s, wider)
  {
  }

  /**
   * A number below 2^32 is read from its decimal text, from its octal text after `0`, and from its hexadecimal
   * text after `0x`.
   */
  lemma PartTexts(n: nat)
    requires n < 0x1_0000_0000
    ensures ParsePart(ToText(n, 10)) == Some(n)
    ensures ParsePart("0" + ToText(n, 8)) == Some(n)
    ensures ParsePart("0x" + ToText(n, 16)) == Some(n) && ParsePart("0X" + ToText(n, 16)) == Some(n)
  {
    DecimalPart(n);
    OctalPart(n);
    HexPart(n);
  }

  lemma DecimalPart(n: nat)
    requires n < 0x1_0000_0000
    ensures ParsePart(ToText(n, 10)) == Some(n)
  {
    hide Value, ToText, Power;
    Powers();
    TextRoundTrip(n, 10);
    TextLength(n, 10, 10);
    var s := ToText(n, 10);
    if n == 0 { ZeroText(); }
    if |s| > 1 { assert s[1] in s && Digit('x') == 16 && Digit('X') == 16; }
  }

  lemma ZeroText()
    ensures ToText(0, 10) == "0"
  {
  }

  lemma OctalPart(n: nat)
    requires n < 0x1_0000_0000
    ensures ParsePart("0" + ToText(n, 8)) == Some(n)
  {
    hide Value, ToText, Power;
    Powers();
    TextRoundTrip(n, 8);
    TextLength(n, 8, 11);
    LeadingZeroKeeps(ToText(n, 8), 8);
    var s := "0" + ToText(n, 8);
    assert s[1] in ToText(n, 8) && Digit('x') == 16 && Digit('X') == 16;
    assert AllDigits(s, 8);
  }

  lemma HexPart(n: nat)
    requires n < 0x1_0000_0000
    ensures ParsePart("0x" + ToText(n, 16)) == Some(n) && ParsePart("0X" + ToText(n, 16)) == Some(n)
  {
    hide Value, ToText, Power;
    Powers();
    TextRoundTrip(n, 16);
    TextLength(n, 16, 8);
    assert ("0x" + ToText(n, 16))[2..] == ToText(n, 16) && ("0X" + ToText(n, 16))[2..] == ToText(n, 16);
  }

  /** A leading zero does not make a part octal when a digit is 8 or 9. */
  lemma NinesAreDecimal(s: string)
    requires 2 <= |s| <= 12 && s[0] == '0' && AllDigits(s, 10) && !AllDigits(s, 8)
    ensures ParsePart(s) == Some(Value(s, 10))
  {
    hide Value, Power;
    assert s[1] in s && Digit('x') == 16 && Digit('X') == 16;
    PartsAreSafe(s, 10);
  }

  /** Any other text is no part. */
  lemma OtherPartsFail(s: string)
    ensures s == "" || |s| > 12 ==> ParsePart(s) == None
    ensures s == "0x" || s == "0X" ==> ParsePart(s) == None
    ensures !AllDigits(s, 10) && !(|s| > 2 && s[0] == '0' && s[1] in {'x', 'X'} && AllDigits(s[2..], 16)) ==>
              ParsePart(s) == None
  {
    hide Value;
    if AllDigits(s, 8) { DigitsBelow(s, 8, 10); }
    assert Digit('x') == 16 && Digit('X') == 16;
    if s == "0x" || s == "0X" { assert s[1] in s; }
  }

  lemma PartChars(part: string)
    requires ParsePart(part).Some?
    ensures part != "" && '.' !in part && ':' !in part
  {
    hide Value;
    assert Digit('.') == 16 && Digit(':') == 16;
    assert |part| > 2 ==> part == [part[0], part[1]] + part[2..];
  }

  // ---------------------------------------------------------------- IPv4 texts

  ghost predicate ReadAs(parts: seq<string>, nums: seq<nat>) {
    |parts| == |nums| && forall i | 0 <= i < |nums| :: ParsePart(parts[i]) == Some(nums[i])
  }

  lemma JoinedParts(parts: seq<string>)
    requires parts != [] && forall p | p in parts :: p != "" && '.' !in p && ':' !in p
    ensures var s := Join(parts, ".");
            s != "" && ':' !in s && Split(s, ".") == parts && Host(s) == s && Host(s + ".") == s
  {
    hide Split, Join;
    var s := Join(parts, ".");
    JoinThenSplit(parts, '.');
    if ':' in s { JoinChars(parts, ".", ':'); }
    JoinEnds(parts, ".");
    assert (s + ".")[..|s|] == s;
  }

  lemma {:induction false} JoinEnds(parts: seq<string>, glue: string)
    requires parts != [] && forall p | p in parts :: p != ""
    ensures var s := Join(parts, glue); s != "" && s[|s| - 1] in parts[|parts| - 1]
  {
    assert forall p | p in parts[1..] :: p in parts;
    assert parts[0] in parts;
    if |parts| > 1 { JoinEnds(parts[1..], glue); }
  }

  /** One to four numbers with dots between them, and perhaps one dot after them, are read as `Address` says. */
  lemma PartsText(parts: seq<string>, nums: seq<nat>)
    requires 1 <= |parts| <= 4 && ReadAs(parts, nums)
    ensures Ipv4Of(Join(parts, ".")) == Address(nums) && Ipv4Of(Join(parts, ".") + ".") == Address(nums)
  {
    hide Split, Join, ParsePart, Address, Host;
    forall p | p in parts ensures p != "" && '.' !in p && ':' !in p {
      var i :| 0 <= i < |parts| && parts[i] == p;
      PartChars(p);
    }
    JoinedParts(parts);
    NumbersOfTexts(parts, nums);
  }

  /**
   * inet_aton, form by form: the last number fills the bytes that the single bytes before it leave over, and
   * every text with a number too large for its place is refused.
   */
  lemma Ipv4Forms(p: string, q: string, r: string, s: string, a: nat, b: nat, c: nat, d: nat)
    requires ReadAs([p, q, r, s], [a, b, c, d])
    ensures Ipv4Of(p) == if a < 0x1_0000_0000 then Some(a) else None
    ensures Ipv4Of(p + "." + q) == if a < 256 && b < 0x100_0000 then Some(a * 0x100_0000 + b) else None
    ensures Ipv4Of(p + "." + q + "." + r) ==
            if a < 256 && b < 256 && c < 0x1_0000 then Some(a * 0x100_0000 + b * 0x1_0000 + c) else None
    ensures Ipv4Of(p + "." + q + "." + r + "." + s) ==
            if a < 256 && b < 256 && c < 256 && d < 256 then Some(a * 0x100_0000 + b * 0x1_0000 + c * 0x100 + d)
            else None
  {
    hide Ipv4Of, Address, ParsePart, Join;
    assert [p, q, r, s][0] == p && [p, q, r, s][1] == q && [p, q, r, s][2] == r && [p, q, r, s][3] == s;
    assert [a, b, c, d][0] == a && [a, b, c, d][1] == b && [a, b, c, d][2] == c && [a, b, c, d][3] == d;
    JoinsAre(p, q, r, s, ".");
    PartsText([p], [a]);
    PartsText([p, q], [a, b]);
    PartsText([p, q, r], [a, b, c]);
    PartsText([p, q, r, s], [a, b, c, d]);
    AddressOne(a);
    AddressTwo(a, b);
    AddressThree(a, b, c);
    AddressFour(a, b, c, d);
  }

  /** Up to four texts joined by a glue. */
  lemma JoinsAre(p: string, q: string, r: string, s: string, g: string)
    ensures Join([p], g) == p && Join([p, q], g) == p + g + q
    ensures Join([p, q, r], g) == p + g + q + g + r && Join([p, q, r, s], g) == p + g + q + g + r + g + s
  {
    hide Join;
    JoinOne(p, g);
    JoinTwo(p, q, g);
    JoinThree(p, q, r, g);
    JoinThree(q, r, s, g);
    JoinCons(p, [q, r, s], g);
    assert [p] + [q, r, s] == [p, q, r, s];
    assert p + g + (q + g + r + g + s) == p + g + q + g + r + g + s;
  }

  lemma JoinOne(p: string, g: string)
    ensures Join([p], g) == p
  {
  }

  lemma JoinTwo(p: string, q: string, g: string)
    ensures Join([p, q], g) == p + g + q
  {
    hide Join;
    JoinOne(q, g);
    JoinCons(p, [q], g);
    assert [p] + [q] == [p, q];
  }

  lemma JoinThree(p: string, q: string, r: string, g: string)
    ensures Join([p, q, r], g) == p + g + q + g + r
  {
    hide Join;
    JoinTwo(q, r, g);
    JoinCons(p, [q, r], g);
    assert [p] + [q, r] == [p, q, r];
    assert p + g + (q + g + r) == p + g + q + g + r;
  }

  lemma AddressOne(a: nat)
    ensures Address([a]) == if a < 0x1_0000_0000 then Some(a) else None
  {
    Powers256();
    assert [a][..0] == [] && Bytes([]) == 0;
  }

  lemma AddressTwo(a: nat, b: nat)
    ensures Address([a, b]) == if a < 256 && b < 0x100_0000 then Some(a * 0x100_0000 + b) else None
  {
    hide Power;
    Powers256();
    assert [a, b][..1] == [a] && [a][..0] == [] && Bytes([]) == 0 && Bytes([a]) == a;
    assert [a, b][0] == a && [a, b][1] == b;
  }

  lemma AddressThree(a: nat, b: nat, c: nat)
    ensures Address([a, b, c]) ==
            if a < 256 && b < 256 && c < 0x1_0000 then Some(a * 0x100_0000 + b * 0x1_0000 + c) else None
  {
    hide Power;
    Powers256();
    assert [a, b, c][..2] == [a, b] && [a, b][..1] == [a] && [a][..0] == [];
    assert Bytes([]) == 0 && Bytes([a]) == a && Bytes([a, b]) == a * 256 + b;
    assert [a, b, c][0] == a && [a, b, c][1] == b && [a, b, c][2] == c;
  }

  lemma AddressFour(a: nat, b: nat, c: nat, d: nat)
    ensures Address([a, b, c, d]) ==
            if a < 256 && b < 256 && c < 256 && d < 256 then Some(a * 0x100_0000 + b * 0x1_0000 + c * 0x100 + d)
            else None
  {
    hide Power;
    Powers256();
    assert [a, b, c, d][..3] == [a, b, c] && [a, b, c][..2] == [a, b] && [a, b][..1] == [a] && [a][..0] == [];
    assert Bytes([]) == 0 && Bytes([a]) == a && Bytes([a, b]) == a * 256 + b;
    assert Bytes([a, b, c]) == (a * 256 + b) * 256 + c;
    assert [a, b, c, d][0] == a && [a, b, c, d][1] == b && [a, b, c, d][2] == c && [a, b, c, d][3] == d;
  }

  /** No more than four parts, and every part a number. */
  lemma OtherIpv4TextsFail(parts: seq<string>)
    requires parts != [] && forall p | p in parts :: p != "" && '.' !in p && ':' !in p
    ensures |parts| > 4 || (exists p | p in parts :: ParsePart(p) == None) ==> Ipv4Of(Join(parts, ".")) == None
    ensures Ipv4Of("") == None && Ipv4Of(".") == None
  {
    hide Split, Join, ParsePart, Address;
    JoinedParts(parts);
    if p :| p in parts && ParsePart(p) == None {
      var i :| 0 <= i < |parts| && parts[i] == p;
      NoNumbers(parts, i);
    }
    assert Host("") == "" && Host(".") == "";
  }

  // ---------------------------------------------------------------- IPv6 texts

  /** Hexadecimal digits in lower case, colons and dots. */
  predicate Plain(s: string) {
    forall c | c in s :: c == ':' || c == '.' || IsDigitChar(c)
  }

  lemma PlainIsCore(s: string)
    requires s != "" && Plain(s)
    ensures CoreOf(s) == s && Trim(s) == s && s != "local"
  {
    hide Lower, CutZone, Trim;
    assert s[0] in s && s[|s| - 1] in s;
    TrimTrims(s);
    LowerIdle(s);
    CutZoneIdle(s);
    assert |"local"| == 5 && "local"[0] == 'l';
  }

  /** Groups joined by single colons: no `::` inside. */
  lemma JoinedGroupsAre(g: seq<string>)
    requires AllGroups(g)
    ensures var s := Join(g, ":");
            && Plain(s) && '.' !in s && Split(s, "::") == [s] && Side(s) == Some(g)
            && forall i | 0 <= i < |s| :: !OccursAt(s + "::", "::", i)
  {
    hide Split, Join;
    var s := Join(g, ":");
    GroupsNotEmpty(g);
    forall p | p in g ensures ':' !in p && '.' !in p { assert IsGroup(p); }
    if g == [] {
      EmptyJoin();
      SplitWithout("", "::");
    } else {
      forall i | 0 <= i < |s| ensures !OccursAt(s + "::", "::", i) { NoDoubleColon(g, i); }
      forall i ensures !OccursAt(s, "::", i) {
        if 0 <= i && i + 2 <= |s| {
          assert !OccursAt(s + "::", "::", i);
          assert (s + "::")[i..i + 2] == s[i..i + 2];
        }
      }
      SplitWithout(s, "::");
      JoinThenSplit(g, ':');
      assert g[0] in g;
      JoinNotEmpty(g, ":");
      forall c | c in s ensures c == ':' || IsDigitChar(c) {
        JoinChars(g, ":", c);
        if c != ':' {
          var p :| p in g && c in p;
          assert IsGroup(p);
        }
      }
    }
  }

  lemma EmptyJoin()
    ensures Join([], ":") == ""
  {
  }

  /** Groups with a `::` between them: as many zeros as are missing. */
  lemma SplitGroups(a: seq<string>, b: seq<string>, need: nat)
    requires AllGroups(a) && AllGroups(b) && |a| + |b| <= need
    ensures Groups(Join(a, ":") + "::" + Join(b, ":"), need) == Some(a + Zeros(need - |a| - |b|) + b)
  {
    hide Split, Join, AllGroups, Side;
    JoinedGroupsAre(a);
    JoinedGroupsAre(b);
    SplitAtFirst(Join(a, ":"), "::", Join(b, ":"));
  }

  lemma ZeroGroups(n: nat)
    ensures AllGroups(Zeros(n)) && Nums(Zeros(n)) == ZeroNums(n)
  {
    ZeroGroup();
    assert forall g | g in Zeros(n) :: g == "0";
  }

  function ZeroNums(n: nat): seq<nat> {
    seq(n, _ => 0)
  }

  lemma NumsConcat(a: seq<string>, b: seq<string>)
    ensures Nums(a + b) == Nums(a) + Nums(b)
  {
  }

  /** The numbers of the groups of a text with a `::`. */
  function Filled(a: seq<string>, b: seq<string>, need: nat): seq<nat>
    requires |a| + |b| <= need
  {
    Nums(a) + ZeroNums(need - |a| - |b|) + Nums(b)
  }

  lemma FilledHextets(a: seq<string>, b: seq<string>, need: nat)
    requires AllGroups(a) && AllGroups(b) && |a| + |b| <= need
    ensures Hextets(Join(a, ":") + "::" + Join(b, ":"), need) == Some(Filled(a, b, need))
  {
    hide Split, Join, Groups, IsGroup;
    SplitGroups(a, b, need);
    var z := Zeros(need - |a| - |b|);
    ZeroGroups(|z|);
    NumsConcat(a, z);
    NumsConcat(a + z, b);
    assert forall g | g in a + z + b :: g in a || g in z || g in b;
  }

  lemma FullHextets(g: seq<string>)
    requires AllGroups(g)
    ensures Hextets(Join(g, ":"), |g|) == Some(Nums(g))
  {
    hide Split, Join, IsGroup, Side;
    JoinedGroupsAre(g);
  }

  lemma WholeText(s: string)
    requires s != "" && Plain(s) && ':' in s && '.' !in s
    ensures Ipv6Of(s) == Whole(Hextets(s, 8))
  {
    hide Hextets, LastColon;
    PlainIsCore(s);
    assert '.' !in s[LastColon(s) + 1..] by {
      assert forall c | c in s[LastColon(s) + 1..] :: c in s;
    }
  }

  /**
   * Eight groups are the base-65536 digits of the address; with a `::` between them, zeros take the place of the
   * groups that are missing.
   */
  lemma Ipv6Forms(g: seq<string>, a: seq<string>, b: seq<string>)
    requires AllGroups(g) && |g| == 8 && AllGroups(a) && AllGroups(b) && |a| + |b| <= 8
    ensures Ipv6Of(Join(g, ":")) == Some(Fold(Nums(g)))
    ensures Ipv6Of(Join(a, ":") + "::" + Join(b, ":")) == Some(Fold(Filled(a, b, 8)))
  {
    hide Split, Join, AllGroups, Hextets, Fold, Ipv6Of;
    JoinedGroupsAre(g);
    JoinedGroupsAre(a);
    JoinedGroupsAre(b);
    HasColon(g);
    FullHextets(g);
    FilledHextets(a, b, 8);
    WholeText(Join(g, ":"));
    WholeText(Join(a, ":") + "::" + Join(b, ":"));
  }

  lemma HasColon(g: seq<string>)
    requires |g| > 1
    ensures ':' in Join(g, ":")
  {
    JoinCons(g[0], g[1..], ":");
    assert [g[0]] + g[1..] == g;
    assert Join(g, ":")[|g[0]|] == ':';
  }

  /** A text that ends with a colon and a dotted address. */
  lemma DottedTail(front: string, n: nat)
    requires Plain(front) && n < 0x1_0000_0000
    ensures Ipv6Of(front + ":" + Dotted(n)) == WithIpv4(Hextets(front, 6), Some(n))
  {
    hide Hextets, LastColon, Dotted, Ipv4Of, Plain, CoreOf, WithIpv4;
    var s, tail := front + ":" + Dotted(n), Dotted(n);
    PlainBeforeDotted(front, n);
    HasDot(n);
    Ipv4RoundTrip(n);
    PlainIsCore(s);
    assert s[|front|] == ':' && s[|front| + 1..] == tail && s[..|front|] == front;
    LastColonIs(s, |front|);
  }

  lemma PlainBeforeDotted(front: string, n: nat)
    requires Plain(front)
    ensures Plain(front + ":" + Dotted(n)) && ':' !in Dotted(n)
  {
    hide Dotted;
    DottedChars(n);
  }

  lemma LastColonIs(s: string, k: int)
    requires 0 <= k < |s| && s[k] == ':' && ':' !in s[k + 1..]
    ensures ':' in s && LastColon(s) == k
  {
    hide LastColon;
    assert s[k] in s;
    var at := LastColon(s);
    assert forall j | at < j < |s| :: s[j] == s[at + 1..][j - at - 1];
    assert forall j | k < j < |s| :: s[j] == s[k + 1..][j - k - 1];
  }

  lemma HasDot(n: nat)
    ensures '.' in Dotted(n)
  {
    assert Dotted(n)[|ToText(Octets(n)[0], 10)|] == '.';
  }

  lemma FoldWithIpv4(nums: seq<nat>, n: nat)
    requires n < 0x1_0000_0000
    ensures Fold(nums + [n / 0x1_0000 % 0x1_0000, n % 0x1_0000]) == Fold(nums) * 0x1_0000_0000 + n
  {
    hide Fold;
    var high, low := n / 0x1_0000 % 0x1_0000, n % 0x1_0000;
    FoldSnoc(nums, high);
    FoldSnoc(nums + [high], low);
    assert nums + [high, low] == nums + [high] + [low];
  }

  /** Six groups before a dotted address are the upper 96 bits, and the dotted address is the lower 32. */
  lemma DottedForm(g: seq<string>, n: nat)
    requires AllGroups(g) && |g| == 6 && n < 0x1_0000_0000
    ensures Ipv6Of(Join(g, ":") + ":" + Dotted(n)) == Some(Fold(Nums(g)) * 0x1_0000_0000 + n)
  {
    hide Split, Join, AllGroups, Hextets, Fold, Ipv6Of, Dotted;
    JoinedGroupsAre(g);
    FullHextets(g);
    DottedTail(Join(g, ":"), n);
    FoldWithIpv4(Nums(g), n);
  }

  /** With a `::` between the groups, zeros take the place of the missing ones. */
  lemma FilledDottedForm(a: seq<string>, b: seq<string>, n: nat)
    requires AllGroups(a) && AllGroups(b) && b != [] && |a| + |b| <= 6 && n < 0x1_0000_0000
    ensures Ipv6Of(Join(a, ":") + "::" + Join(b, ":") + ":" + Dotted(n)) ==
            Some(Fold(Filled(a, b, 6)) * 0x1_0000_0000 + n)
  {
    hide Split, Join, AllGroups, Hextets, Fold, Ipv6Of, Dotted, Filled;
    JoinedGroupsAre(a);
    JoinedGroupsAre(b);
    FilledHextets(a, b, 6);
    DottedTail(Join(a, ":") + "::" + Join(b, ":"), n);
    FoldWithIpv4(Filled(a, b, 6), n);
  }

  /** A dotted address directly after `::` is refused: the colon before it is taken away, and one colon stays. */
  lemma DottedAfterDoubleColonFails(a: seq<string>, n: nat)
    requires AllGroups(a) && n < 0x1_0000_0000
    ensures Ipv6Of(Join(a, ":") + "::" + Dotted(n)) == None
  {
    hide Split, Join, AllGroups, Fold, Ipv6Of, Dotted, Hextets;
    JoinedGroupsAre(a);
    var front := Join(a, ":") + ":";
    DottedTail(front, n);
    assert front + ":" + Dotted(n) == Join(a, ":") + "::" + Dotted(n);
    LooseColon(a);
  }

  lemma LooseColon(a: seq<string>)
    requires AllGroups(a)
    ensures Hextets(Join(a, ":") + ":", 6) == None
  {
    hide Join, AllGroups, Split;
    var x := Join(a, ":");
    var front := x + ":";
    JoinedGroupsAre(a);
    forall i ensures !OccursAt(front, "::", i) {
      if 0 <= i && i + 2 <= |front| {
        assert (x + "::")[i..i + 2] == front[i..i + 2];
        assert !OccursAt(x + "::", "::", i);
      }
    }
    SplitWithout(front, "::");
    EmptyLastPart(x);
  }

  lemma {:induction false} EmptyLastPart(x: string)
    ensures "" in Split(x + ":", ":")
  {
    if x == "" {
      assert "" + ":" == ":" && ":"[1..] == "";
    } else {
      EmptyLastPart(x[1..]);
      assert (x + ":")[1..] == x[1..] + ":";
      if ":" <= x + ":" {
        assert Split(x + ":", ":") == [""] + Split(x[1..] + ":", ":");
      } else {
        var rest := Split(x[1..] + ":", ":");
        assert Split(x + ":", ":") == [[x[0]] + rest[0]] + rest[1..];
        LastIsLater(x[1..]);
      }
    }
  }

  /** The empty part is not the first one, unless nothing stands before the colon. */
  lemma {:induction false} LastIsLater(x: string)
    ensures "" in Split(x + ":", ":")[1..]
  {
    if x == "" {
      assert "" + ":" == ":" && ":"[1..] == "" && Split(":", ":") == [""] + Split("", ":");
      assert Split("", ":") == [""];
    } else {
      LastIsLater(x[1..]);
      assert (x + ":")[1..] == x[1..] + ":";
      var rest := Split(x[1..] + ":", ":");
      assert forall p | p in rest[1..] :: p in rest;
      if ":" <= x + ":" {
        assert Split(x + ":", ":")[1..] == rest;
      } else {
        assert Split(x + ":", ":")[1..] == rest[1..];
      }
    }
  }

  // ---------------------------------------------------------------- around an address

  /** Brackets, a zone and the case of letters do not matter, whatever stands between the brackets. */
  lemma DressingDoesNotMatter(s: string, zone: string)
    requires s != "" && Plain(s)
    ensures Ipv6Of("[" + s + "]") == Ipv6Of(s) && Ipv6Of("[" + s + "%" + zone + "]") == Ipv6Of(s)
    ensures Ipv6Of(s + "%") == Ipv6Of(s)
  {
    hide CoreOf, AddressAt, Plain, LastColon;
    PlainIsCore(s);
    Undressed("[" + s + "]", s, "");
    Undressed("[" + s + "%" + zone + "]", s, "%" + zone);
    assert "[" + (s + "%" + zone) + "]" == "[" + s + "%" + zone + "]" && s + ("%" + zone) == s + "%" + zone;
    EmptyZone(s);
  }

  lemma EmptyZone(s: string)
    requires s != "" && Plain(s)
    ensures CoreOf(s + "%") == s
  {
    hide Lower, CutZone, Trim;
    TrimTrims(s + "%");
    assert s[0] in s;
    LowerIdle(s);
    LowerConcatText(s, "%");
    assert (s + "%")[0] != '[';
    CutZoneAt(s, "%");
    assert Lower("%") == "%";
  }

  lemma LowerConcatText(a: string, b: string)
    ensures Lower(a + b) == Lower(a) + Lower(b)
  {
    hide LowerChar;
  }

  lemma Undressed(text: string, s: string, rest: string)
    requires Plain(s) && text == "[" + (s + rest) + "]" && (rest == "" || rest[0] == '%')
    ensures CoreOf(text) == s
  {
    hide CutZone, Trim, Lower;
    TrimTrims(text);
    var low := Lower(text);
    assert low[0] == '[' && low[|low| - 1] == ']';
    assert Inner(low) == Lower(s + rest);
    LowerConcatText(s, rest);
    LowerIdle(s);
    CutZoneAt(s, Lower(rest));
  }

  lemma CaseDoesNotMatter(s: string)
    ensures Ipv6Of(Lower(s)) == Ipv6Of(s)
  {
    hide AddressAt, CutZone;
    LowerTrim(s);
    LowerTwice(Trim(s));
  }

  lemma LowerTwice(s: string)
    ensures Lower(Lower(s)) == Lower(s)
  {
  }

  lemma SpaceHasNoCase(c: char)
    ensures IsSpace(LowerChar(c)) == IsSpace(c)
  {
  }

  lemma {:induction false} LowerTrimStart(s: string)
    ensures TrimStart(Lower(s)) == Lower(TrimStart(s))
  {
    hide LowerChar, IsSpace;
    if s != "" {
      SpaceHasNoCase(s[0]);
      assert Lower(s)[1..] == Lower(s[1..]);
      LowerTrimStart(s[1..]);
    }
  }

  lemma {:induction false} LowerTrimEnd(s: string)
    ensures TrimEnd(Lower(s)) == Lower(TrimEnd(s))
  {
    hide LowerChar, IsSpace;
    if s != "" {
      SpaceHasNoCase(s[|s| - 1]);
      assert Lower(s)[..|s| - 1] == Lower(s[..|s| - 1]);
      LowerTrimEnd(s[..|s| - 1]);
    }
  }

  lemma LowerTrim(s: string)
    ensures Trim(Lower(s)) == Lower(Trim(s))
  {
    LowerTrimStart(s);
    LowerTrimEnd(TrimStart(s));
  }

  // ---------------------------------------------------------------- keys

  /** The key of every text: a dotted address, the /64 of an IPv6 address, or `local` for anything else. */
  lemma KeyOfText(ip: string)
    ensures Trim(ip) in {"", "local"} ==> NetworkKey(ip) == "local"
    ensures Trim(ip) !in {"", "local"} && Ipv4Of(Trim(ip)).Some? ==> NetworkKey(ip) == Dotted(Ipv4Of(Trim(ip)).value)
    ensures Trim(ip) !in {"", "local"} && Ipv4Of(Trim(ip)).None? && Ipv6Of(Trim(ip)).None? ==> NetworkKey(ip) == "local"
  {
    hide Trim, Ipv4Of, Ipv6Of, Dotted, Ipv6Key;
  }

  /** `::ffff:` before a dotted address: both Workers give the key of the IPv4 address. */
  lemma MappedText(n: nat)
    requires n < 0x1_0000_0000
    ensures Ipv6Of("::ffff:" + Dotted(n)) == Some(0xffff * 0x1_0000_0000 + n)
    ensures NetworkKey("::ffff:" + Dotted(n)) == Dotted(n) && NetworkKey(Dotted(n)) == Dotted(n)
    ensures DeskKey("::ffff:" + Dotted(n)) == Dotted(n)
  {
    hide Dotted, Ipv6Of, NetworkKey, DeskKey, Trim;
    MappedNumber(n);
    var text := "::ffff:" + Dotted(n);
    MappedIsPlain(n);
    PlainIsCore(text);
    MappedKeyIsIpv4Key(text);
    assert (0xffff * 0x1_0000_0000 + n) / 0x1_0000_0000 == 0xffff && (0xffff * 0x1_0000_0000 + n) % 0x1_0000_0000 == n;
    DottedKey(n);
    MappedDeskKey(n);
  }

  lemma MappedIsPlain(n: nat)
    ensures Plain("::ffff:" + Dotted(n))
  {
    hide Dotted;
    DottedChars(n);
  }

  lemma MappedNumber(n: nat)
    requires n < 0x1_0000_0000
    ensures Ipv6Of("::ffff:" + Dotted(n)) == Some(0xffff * 0x1_0000_0000 + n)
  {
    hide Dotted, Ipv6Of, Join, Fold, Filled;
    FfffGroup();
    EmptyJoin();
    assert Join(["ffff"], ":") == "ffff" by { JoinOne("ffff", ":"); }
    FilledDottedForm([], ["ffff"], n);
    assert "" + "::" + "ffff" + ":" + Dotted(n) == "::ffff:" + Dotted(n);
    FfffFilled();
  }

  lemma FfffGroup()
    ensures AllGroups(["ffff"]) && AllGroups([]) && Value("ffff", 16) == 0xffff
  {
    assert IsGroup("ffff");
    assert "ffff"[..3] == "fff" && "fff"[..2] == "ff" && "ff"[..1] == "f" && "f"[..0] == "";
  }

  lemma FfffFilled()
    ensures Fold(Filled([], ["ffff"], 6)) == 0xffff
  {
    hide Fold, Value;
    FfffGroup();
    assert Nums(["ffff"]) == [0xffff] && Nums([]) == [];
    assert Filled([], ["ffff"], 6) == [0, 0, 0, 0, 0] + [0xffff];
    FoldSnoc([0, 0, 0, 0, 0], 0xffff);
    FoldOfNothing();
    FoldSnoc([], 0);
    FoldSnoc([0], 0);
    FoldSnoc([0, 0], 0);
    FoldSnoc([0, 0, 0], 0);
    FoldSnoc([0, 0, 0, 0], 0);
    assert [] + [0] == [0] && [0] + [0] == [0, 0] && [0, 0] + [0] == [0, 0, 0];
    assert [0, 0, 0] + [0] == [0, 0, 0, 0] && [0, 0, 0, 0] + [0] == [0, 0, 0, 0, 0];
  }

  lemma MappedDeskKey(n: nat)
    ensures DeskKey("::ffff:" + Dotted(n)) == Dotted(n)
  {
    hide Dotted, Trim, ExpandIpv6, DottedQuad, Plain, CoreOf;
    var text, head := "::ffff:" + Dotted(n), "::ffff:";
    DottedIsQuad(n);
    MappedIsPlain(n);
    PlainIsCore(text);
    assert head[0] == ':' && text[0] == head[0] && text[..7] == head && text[7..] == Dotted(n);
    assert Lower(head) == head;
  }

  lemma DottedIsQuad(n: nat)
    ensures Dotted(n) != "" && DottedQuad(Dotted(n))
  {
    hide Dotted, Split;
    DottedSplits(n);
    forall p | p in OctetTexts(n) ensures 1 <= |p| <= 3 && AllDigits(p, 10) {
      var i :| 0 <= i < 4 && OctetTexts(n)[i] == p;
      OctetText(Octets(n)[i]);
    }
  }

  lemma OctetText(n: nat)
    requires n < 256
    ensures 1 <= |ToText(n, 10)| <= 3 && AllDigits(ToText(n, 10), 10)
  {
    TextRoundTrip(n, 10);
    assert Power(10, 3) == 10 * Power(10, 2) && Power(10, 2) == 10 * Power(10, 1);
    TextLength(n, 10, 3);
  }

  /** The key of an IPv6 text with eight groups: the canonical texts of the first four, and `::`. */
  lemma KeyOfGroups(g: seq<string>)
    requires AllGroups(g) && |g| == 8 && !Mapped(Fold(Nums(g)))
    ensures NetworkKey(Join(g, ":")) == ToText(Value(g[0], 16), 16) + ":" + ToText(Value(g[1], 16), 16) + ":"
                                        + ToText(Value(g[2], 16), 16) + ":" + ToText(Value(g[3], 16), 16) + "::"
  {
    hide Join, AllGroups, Fold, Ipv6Of, NetworkKey, Mapped, Value, HextetTexts, ToText;
    var s, v := Join(g, ":"), Fold(Nums(g));
    FfffGroup();
    Ipv6Forms(g, [], []);
    JoinedGroupsAre(g);
    HasColon(g);
    PlainIsCore(s);
    Ipv6TextKey(s);
    SubnetHextets(v);
    GroupTexts(g);
    FourJoined(HextetTexts(v, 8)[..4]);
  }

  lemma GroupTexts(g: seq<string>)
    requires AllGroups(g) && |g| == 8
    ensures forall i | 0 <= i < 8 :: HextetTexts(Fold(Nums(g)), 8)[i] == ToText(Value(g[i], 16), 16)
  {
    hide Fold, ToText, Value, IsGroup;
    forall k | 0 <= k < 8 ensures Nums(g)[k] < 0x1_0000 {
      assert g[k] in g;
      GroupValue(g[k]);
    }
    forall i | 0 <= i < 8 ensures HextetTexts(Fold(Nums(g)), 8)[i] == ToText(Value(g[i], 16), 16) {
      HextetOfFold(Nums(g), i);
    }
  }

  lemma FourJoined(t: seq<string>)
    requires |t| == 4
    ensures Join(t, ":") == t[0] + ":" + t[1] + ":" + t[2] + ":" + t[3]
  {
    JoinsAre(t[0], t[1], t[2], t[3], ":");
    assert t == [t[0], t[1], t[2], t[3]];
  }

  /** The desk keeps a text that is no address as it is, and calls the empty text `local`. */
  lemma DeskKeyOfOthers(ip: string)
    ensures Trim(ip) == "" ==> DeskKey(ip) == "local"
    ensures Trim(ip) != "" && ':' !in Trim(ip) && Trim(ip)[0] != '[' ==> DeskKey(ip) == Trim(ip)
  {
    hide Trim, CutZone, Lower, Split, DottedQuad;
    var t := Trim(ip);
    if t != "" && ':' !in t && t[0] != '[' {
      NotMappedHead(t);
      NoColonNoExpansion(t);
    }
  }

  /**
   * The desk drops brackets around anything, unless a line terminator stands between them; what a text without
   * colons holds does not matter.
   */
  lemma BracketsGo(s: string)
    requires s != "" && ':' !in s
    ensures DeskKey("[" + s + "]") ==
            if exists c | c in s :: c in {'\n', '\r', '\U{2028}', '\U{2029}'} then "[" + s + "]" else s
  {
    hide Trim, CutZone, Lower, Split, DottedQuad, ExpandIpv6, HasLineTerminator;
    var t := "[" + s + "]";
    TrimTrims(t);
    assert Inner(t) == s;
    LineTerminators(s);
    NoColonNoExpansion(t);
    NoColonNoExpansion(s);
    NotMappedHead(t);
    NotMappedHead(s);
  }

  lemma LineTerminators(s: string)
    ensures HasLineTerminator(s) <==> exists c | c in s :: c in {'\n', '\r', '\U{2028}', '\U{2029}'}
  {
  }

  lemma NotMappedHead(s: string)
    requires ':' !in s
    ensures |s| > 7 ==> Lower(s[..7]) != "::ffff:"
  {
    if |s| > 7 {
      assert s[0] in s;
      assert Lower(s[..7])[0] == LowerChar(s[0]) && "::ffff:"[0] == ':';
    }
  }

  /**
   * After `::ffff:` in any case, the desk takes four parts of one to three decimal digits for the key, whatever
   * their size; any other text with a dot is its own key.
   */
  lemma QuadKey(head: string, tail: string)
    requires Lower(head) == "::ffff:" && '.' in tail && '%' !in tail && !IsSpace(tail[|tail| - 1])
    ensures var parts := Split(tail, ".");
            DeskKey(head + tail) ==
            if |parts| == 4 && (forall p | p in parts :: |p| in {1, 2, 3} && forall c | c in p :: '0' <= c <= '9')
            then tail else head + tail
  {
    hide Trim, CutZone, Lower, Split, DottedQuad, Canonical, IsHexGroup;
    var text := head + tail;
    HeadChars(head);
    assert text[..7] == head && text[7..] == tail;
    TrimTrims(text);
    CutZoneIdle(text);
    assert '.' in text;
    QuadDigits(tail);
  }

  lemma HeadChars(head: string)
    requires Lower(head) == "::ffff:"
    ensures |head| == 7 && head[0] == ':' && '%' !in head
  {
    var low := "::ffff:";
    assert forall i | 0 <= i < 7 :: low[i] == LowerChar(head[i]) && low[i] in {':', 'f'};
  }

  lemma QuadDigits(s: string)
    ensures var parts := Split(s, ".");
            DottedQuad(s) <==>
            |parts| == 4 && (forall p | p in parts :: |p| in {1, 2, 3} && forall c | c in p :: '0' <= c <= '9')
  {
    hide Split;
  }

  lemma NoColonNoExpansion(t: string)
    ensures ':' !in t ==> ExpandIpv6(t) == None
  {
    hide Trim, Split, IsHexGroup, Canonical;
    TrimWithin(t, ':');
    var u := UnbracketPattern(Trim(t));
    assert ':' in u ==> ':' in Trim(t);
    assert ':' in CutZone(u) ==> ':' in u;
  }
}
