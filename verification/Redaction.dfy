/** demos/byok-playground/src/shared/text.ts: exact-key redaction, in one piece and as a stream. */
module Redaction {
  import opened JsStrings
  import opened Options
  import opened Placeholder

  const PLACEHOLDER := "[redacted]"
  const MIN_SECRET := 4

  // ---------------------------------------------------------------- the operations

  function RedactOne(text: string, secret: string): string {
    var key := Trim(secret);
    if |key| < MIN_SECRET then text else Join(Split(text, key), PLACEHOLDER)
  }

  function Redacted(text: string, secrets: seq<string>): string
    decreases |secrets|
  {
    if secrets == [] then text else Redacted(RedactOne(text, secrets[0]), secrets[1..])
  }

  method RedactExact(text: string, secrets: seq<string>) returns (out: string)
    ensures out == Redacted(text, secrets)
  {
    out := text;
    for i := 0 to |secrets|
      invariant Redacted(out, secrets[i..]) == Redacted(text, secrets)
    {
      var trimmed := Trim(secrets[i]);
      if |trimmed| < MIN_SECRET { continue; }
      out := Join(Split(out, trimmed), PLACEHOLDER);
    }
  }

  /** The longest carry any of the secrets can need: one character less than the secret. */
  function Hold(secrets: seq<string>): (h: nat)
    ensures forall s | s in secrets :: |Trim(s)| - 1 <= h
    ensures h == 0 || exists s :: s in secrets && h == |Trim(s)| - 1
  {
    if secrets == [] then 0
    else
      var rest := Hold(secrets[1..]);
      var own := |Trim(secrets[0])| - 1;
      if own > rest then own else rest
  }

  datatype Pushed = Pushed(emit: string, carry: string)

  /** One `push`: what leaves the redactor and what it holds back. */
  function PushStep(secrets: seq<string>, carry: string, chunk: string, last: bool): Pushed {
    var redacted := Redacted(carry + chunk, secrets);
    var hold := Hold(secrets);
    if last || hold == 0 then Pushed(redacted, "")
    else if |redacted| <= hold then Pushed("", redacted)
    else Pushed(redacted[..|redacted| - hold], redacted[|redacted| - hold..])
  }

  class ExactRedactor {
    const secrets: seq<string>
    const hold: nat
    var carry: string

    constructor (secrets: seq<string>)
      ensures this.secrets == secrets && hold == Hold(secrets) && carry == ""
    {
      this.secrets := secrets;
      this.hold := Hold(secrets);
      this.carry := "";
    }

    method Push(chunk: string, last: bool := false) returns (emit: string)
      requires hold == Hold(secrets)
      modifies this
      ensures Pushed(emit, carry) == PushStep(secrets, old(carry), chunk, last)
    {
      var redacted := RedactExact(carry + chunk, secrets);
      if last || hold == 0 {
        carry := "";
        return redacted;
      }
      if |redacted| <= hold {
        carry := redacted;
        return "";
      }
      emit := redacted[..|redacted| - hold];
      carry := redacted[|emit|..];
    }

    method Flush() returns (out: string)
      modifies this
      ensures out == Redacted(old(carry), secrets) && carry == ""
    {
      out := RedactExact(carry, secrets);
      carry := "";
    }
  }

  /** Everything a stream of pushes and the closing flush send out. */
  function Streamed(secrets: seq<string>, carry: string, chunks: seq<string>): string
    decreases |chunks|
  {
    if chunks == [] then Redacted(carry, secrets)
    else
      var p := PushStep(secrets, carry, chunks[0], false);
      p.emit + Streamed(secrets, p.carry, chunks[1..])
  }

  /** The whole life of one redactor object: the object really sends out `Streamed`. */
  method RunRedactor(secrets: seq<string>, chunks: seq<string>) returns (sent: string)
    ensures sent == Streamed(secrets, "", chunks)
  {
    hide Redacted, PushStep;
    var r := new ExactRedactor(secrets);
    sent := "";
    for i := 0 to |chunks|
      invariant r.secrets == secrets && r.hold == Hold(secrets)
      invariant sent + Streamed(secrets, r.carry, chunks[i..]) == Streamed(secrets, "", chunks)
    {
      var emit := r.Push(chunks[i]);
      sent := sent + emit;
    }
    var tail := r.Flush();
    sent := sent + tail;
  }

  // ---------------------------------------------------------------- one key

  lemma RedactedIsReplace(s: string, secret: string)
    requires |Trim(secret)| >= MIN_SECRET
    ensures Redacted(s, [secret]) == Replace(s, Trim(secret), PLACEHOLDER)
  {
    SplitJoinReplaces(s, Trim(secret), PLACEHOLDER);
    assert Redacted(s, [secret]) == Redacted(RedactOne(s, secret), []);
  }

  lemma ShortSecretKeeps(s: string, secret: string)
    requires |Trim(secret)| < MIN_SECRET
    ensures Redacted(s, [secret]) == s
  {
    assert Redacted(s, [secret]) == Redacted(RedactOne(s, secret), []);
  }

  lemma PushIsKept(secret: string, carry: string, chunk: string)
    requires |Trim(secret)| >= MIN_SECRET
    ensures var out := Replace(carry + chunk, Trim(secret), PLACEHOLDER);
            var h := |Trim(secret)| - 1;
            PushStep([secret], carry, chunk, false) == Pushed(Gone(out, h), Kept(out, h))
  {
    hide Replace, Redacted, Trim, Hold;
    RedactedIsReplace(carry + chunk, secret);
    HoldOfOne(secret);
  }

  lemma HoldOfOne(secret: string)
    requires |Trim(secret)| >= MIN_SECRET
    ensures Hold([secret]) == |Trim(secret)| - 1
  {
    assert Hold([secret][1..]) == 0;
  }

  /** What stays in the carry is too short to hold the key, so flushing it changes nothing. */
  lemma FlushKeeps(secret: string, out: string)
    requires |Trim(secret)| >= MIN_SECRET
    ensures Redacted(Kept(out, |Trim(secret)| - 1), [secret]) == Kept(out, |Trim(secret)| - 1)
  {
    var kept := Kept(out, |Trim(secret)| - 1);
    RedactedIsReplace(kept, secret);
    ShortStays(kept, Trim(secret), PLACEHOLDER);
  }

  // ---------------------------------------------------------------- streaming refines the batch form

  /** From any carry, the rest of the stream behaves like one batch call. */
  lemma {:induction false} StreamsAsBatch(secret: string, carry: string, chunks: seq<string>)
    requires |Trim(secret)| >= MIN_SECRET && Streamable(Trim(secret), PLACEHOLDER)
    ensures Streamed([secret], carry, chunks) == Redacted(carry + Concat(chunks), [secret])
    decreases |chunks|
  {
    hide Replace, Redacted, PushStep, Streamable, Gone, Kept, Trim;
    var key := Trim(secret);
    if chunks == [] {
      assert carry + Concat(chunks) == carry;
    } else {
      PushIsKept(secret, carry, chunks[0]);
      var rest := Concat(chunks[1..]);
      var out := Replace(carry + chunks[0], key, PLACEHOLDER);
      StreamsAsBatch(secret, Kept(out, |key| - 1), chunks[1..]);
      HoldBack(carry + chunks[0], rest, key, PLACEHOLDER);
      RedactedIsReplace(Kept(out, |key| - 1) + rest, secret);
      assert carry + Concat(chunks) == carry + chunks[0] + rest;
      RedactedIsReplace(carry + chunks[0] + rest, secret);
    }
  }

  lemma ShortPushKeeps(secret: string, carry: string, chunk: string)
    requires |Trim(secret)| < MIN_SECRET
    ensures var p := PushStep([secret], carry, chunk, false); p.emit + p.carry == carry + chunk
  {
    ShortSecretKeeps(carry + chunk, secret);
  }

  /** A secret too short to redact passes through unchanged, however the text is cut. */
  lemma {:induction false} ShortSecretStreams(secret: string, carry: string, chunks: seq<string>)
    requires |Trim(secret)| < MIN_SECRET
    ensures Streamed([secret], carry, chunks) == carry + Concat(chunks)
    decreases |chunks|
  {
    hide Redacted, PushStep;
    if chunks == [] {
      ShortSecretKeeps(carry, secret);
    } else {
      ShortPushKeeps(secret, carry, chunks[0]);
      var p, rest := PushStep([secret], carry, chunks[0], false), Concat(chunks[1..]);
      ShortSecretStreams(secret, p.carry, chunks[1..]);
      assert p.emit + (p.carry + rest) == p.emit + p.carry + rest;
      assert carry + chunks[0] + rest == carry + (chunks[0] + rest);
    }
  }

  /** Two pushes and a flush, for a key long enough to redact. */
  lemma TwoChunks(secret: string, a: string, b: string)
    requires |Trim(secret)| >= MIN_SECRET
    ensures Streamed([secret], "", [a, b]) == Redacted(Concat([a, b]), [secret])
            <==> CutSafe(a, b, Trim(secret), PLACEHOLDER)
  {
    hide Replace, Redacted, PushStep;
    var key, h := Trim(secret), |Trim(secret)| - 1;
    assert "" + a == a && [a, b][1..] == [b] && [b][1..] == [];
    PushIsKept(secret, "", a);
    var first := Replace(a, key, PLACEHOLDER);
    PushIsKept(secret, Kept(first, h), b);
    var second := Replace(Kept(first, h) + b, key, PLACEHOLDER);
    FlushKeeps(secret, second);
    assert Streamed([secret], Kept(second, h), []) == Kept(second, h);
    assert Streamed([secret], Kept(first, h), [b]) == Gone(second, h) + Kept(second, h) == second;
    assert Concat([b]) == b + "" == b && Concat([a, b]) == a + Concat([b]);
    RedactedIsReplace(a + b, secret);
  }

  /** A key that is not streamable has a text and a cut that betray it. */
  lemma StreamsWrongly(secret: string) returns (chunks: seq<string>)
    requires |Trim(secret)| >= MIN_SECRET && !Streamable(Trim(secret), PLACEHOLDER)
    ensures Streamed([secret], "", chunks) != Redacted(Concat(chunks), [secret])
  {
    hide Replace;
    var key := Trim(secret);
    var d :| -|PLACEHOLDER| < d && d + |PLACEHOLDER| < |key| && Agrees(key, d, PLACEHOLDER);
    if |key| == |PLACEHOLDER| { assert key[d + 9] == PLACEHOLDER[9] && PLACEHOLDER[d + 9] != PLACEHOLDER[9]; }
    var a, b := WrongCut(key, d, PLACEHOLDER);
    TwoChunks(secret, a, b);
    chunks := [a, b];
  }

  /**
   * Streaming refines the batch form for every text and every cutting of it exactly when the key is
   * too short to redact or streamable.
   */
  lemma StreamingEqualsBatch(secret: string)
    ensures (forall chunks :: Streamed([secret], "", chunks) == Redacted(Concat(chunks), [secret]))
            <==> |Trim(secret)| < MIN_SECRET || Streamable(Trim(secret), PLACEHOLDER)
  {
    hide Replace;
    if |Trim(secret)| >= MIN_SECRET && !Streamable(Trim(secret), PLACEHOLDER) {
      var chunks := StreamsWrongly(secret);
    } else {
      forall chunks ensures Streamed([secret], "", chunks) == Redacted(Concat(chunks), [secret]) {
        assert "" + Concat(chunks) == Concat(chunks);
        if |Trim(secret)| < MIN_SECRET {
          ShortSecretStreams(secret, "", chunks);
          ShortSecretKeeps(Concat(chunks), secret);
        } else {
          StreamsAsBatch(secret, "", chunks);
        }
      }
    }
  }

  /** Marking the last push sends at once what that push and a flush would have sent. */
  lemma LastPushIsPushThenFlush(secret: string, carry: string, chunk: string)
    ensures var p := PushStep([secret], carry, chunk, false);
            PushStep([secret], carry, chunk, true) == Pushed(p.emit + Redacted(p.carry, [secret]), "")
  {
    hide Replace, Redacted, PushStep;
    PushLast(secret, carry, chunk);
    if |Trim(secret)| < MIN_SECRET {
      ShortPushKeeps(secret, carry, chunk);
      ShortSecretKeeps(carry + chunk, secret);
      ShortSecretKeeps(PushStep([secret], carry, chunk, false).carry, secret);
    } else {
      PushIsKept(secret, carry, chunk);
      RedactedIsReplace(carry + chunk, secret);
      FlushKeeps(secret, Replace(carry + chunk, Trim(secret), PLACEHOLDER));
    }
  }

  lemma PushLast(secret: string, carry: string, chunk: string)
    ensures PushStep([secret], carry, chunk, true) == Pushed(Redacted(carry + chunk, [secret]), "")
  {
  }

  // ---------------------------------------------------------------- the output no longer holds the key

  /** Redaction removes the key from every text exactly when the key cannot regrow around a placeholder. */
  lemma OutputHidesKey(secret: string)
    requires |Trim(secret)| >= MIN_SECRET
    ensures (forall text :: !Contains(Redacted(text, [secret]), Trim(secret))) <==> !Regrows(Trim(secret), PLACEHOLDER)
  {
    hide Replace;
    var key := Trim(secret);
    if Regrows(key, PLACEHOLDER) {
      var d :| -|PLACEHOLDER| < d < |key| && Agrees(key, d, PLACEHOLDER) && FirstAt(key, d);
      RegrownHoldsKey(key, d, PLACEHOLDER);
      RedactedIsReplace(Regrown(key, d, PLACEHOLDER), secret);
    } else {
      forall text ensures !Contains(Redacted(text, [secret]), key) {
        RedactedIsReplace(text, secret);
        forall i ensures !OccursAt(Replace(text, key, PLACEHOLDER), key, i) { NeverRegrows(text, key, i, PLACEHOLDER); }
      }
    }
  }

  lemma RedactedHidesKey(secret: string, text: string)
    requires |Trim(secret)| >= MIN_SECRET && !Regrows(Trim(secret), PLACEHOLDER)
    ensures !Contains(Redacted(text, [secret]), Trim(secret))
  {
    OutputHidesKey(secret);
  }

  /** Keys without brackets that are no part of the word `redacted` stream exactly and never reappear. */
  lemma PlainKeysAreSafe(key: string)
    requires key != "" && '[' !in key && ']' !in key && !Contains("redacted", key)
    ensures Streamable(key, PLACEHOLDER) && !Regrows(key, PLACEHOLDER)
  {
    forall d | -|PLACEHOLDER| < d < |key| ensures !Agrees(key, d, PLACEHOLDER) {
      if d >= 0 {
        assert key[d] in key && PLACEHOLDER[d - d] == '[';
      } else if d + 9 < |key| {
        assert key[d + 9] in key && PLACEHOLDER[d + 9 - d] == ']';
      } else {
        var i := -d - 1;
        assert !OccursAt("redacted", key, i);
        assert "redacted" == PLACEHOLDER[1..9];
        InsidePlaceholder(key, d, PLACEHOLDER);
      }
    }
  }

  // ---------------------------------------------------------------- literal texts

  /** A key of four characters is replaced; a key of three is not. */
  lemma FourCharactersAreRedacted(secret: string, text: string)
    ensures |Trim(secret)| < 4 ==> Redacted(text, [secret]) == text
    ensures |Trim(secret)| >= 4 ==> Redacted(text, [secret]) == Replace(text, Trim(secret), "[redacted]")
    ensures |Trim(secret)| >= 4 ==> Redacted(Trim(secret), [secret]) == "[redacted]"
  {
    hide Replace, Redacted, Trim;
    if |Trim(secret)| < 4 {
      ShortSecretKeeps(text, secret);
    } else {
      RedactedIsReplace(text, secret);
      RedactedIsReplace(Trim(secret), secret);
      KeyAlone(Trim(secret), "", PLACEHOLDER);
      assert Trim(secret) + "" == Trim(secret) && PLACEHOLDER + "" == PLACEHOLDER;
    }
  }

  /** Several secrets are replaced one after the other, in their order. */
  lemma {:induction false} SecretsInOrder(text: string, first: seq<string>, more: seq<string>)
    ensures Redacted(text, first + more) == Redacted(Redacted(text, first), more)
    decreases |first|
  {
    hide RedactOne;
    if first == [] {
      assert first + more == more;
    } else {
      assert (first + more)[1..] == first[1..] + more;
      SecretsInOrder(RedactOne(text, first[0]), first[1..], more);
    }
  }

  /** A push sends all that it has redacted but the last `|key| - 1` characters, and nothing if there are no more. */
  lemma PushSendsAllButTail(secret: string, carry: string, chunk: string)
    requires |Trim(secret)| >= 4
    ensures var p := PushStep([secret], carry, chunk, false); var out := Redacted(carry + chunk, [secret]);
            && p.emit + p.carry == out
            && |p.carry| == if |out| < |Trim(secret)| then |out| else |Trim(secret)| - 1
  {
    hide Replace, Redacted, PushStep, Trim;
    PushIsKept(secret, carry, chunk);
    RedactedIsReplace(carry + chunk, secret);
  }

  // ---------------------------------------------------------------- the keys that the Worker accepts

  const MAX_KEY_CHARS := 8192

  predicate PrintableAscii(key: string) {
    key != "" && forall c | c in key :: '\U{0021}' <= c <= '\U{007E}'
  }

  /** `readApiKey` of a request: the trimmed key, if it is short enough and printable. */
  function ReadApiKey(raw: string): Option<string> {
    var key := Trim(raw);
    if |key| > MAX_KEY_CHARS || !PrintableAscii(key) then None else Some(key)
  }

  /** The Worker passes a key on as it reads it: trimming it again changes nothing. */
  lemma AcceptedKey(raw: string)
    ensures ReadApiKey(raw).Some? ==>
              PrintableAscii(ReadApiKey(raw).value) && Trim(ReadApiKey(raw).value) == ReadApiKey(raw).value
  {
    hide Trim;
    TrimTrims(raw);
    TrimTrims(Trim(raw));
  }

  /** Exactly the texts that trim to 1 to 8192 printable characters are accepted, as that trimmed text. */
  lemma AcceptedIff(raw: string)
    ensures ReadApiKey(raw) ==
            if 1 <= |Trim(raw)| <= 8192 && forall c | c in Trim(raw) :: '!' <= c <= '~' then Some(Trim(raw)) else None
  {
    hide Trim;
    assert '!' == '\U{0021}' && '~' == '\U{007E}';
  }

  const BRACKET_KEY := "]abcd"

  /**
   * The Worker accepts a key for which both promises fail: cut after itself, the text `]abcdabcd` streams
   * to something else than its batch redaction, and that batch redaction holds the key.
   */
  lemma BracketKeyFails()
    ensures ReadApiKey(BRACKET_KEY) == Some(BRACKET_KEY)
    ensures !Streamable(BRACKET_KEY, PLACEHOLDER) && Regrows(BRACKET_KEY, PLACEHOLDER)
    ensures Redacted(BRACKET_KEY + "abcd", [BRACKET_KEY]) == "[redacted]abcd" && Contains("[redacted]abcd", BRACKET_KEY)
    ensures Streamed([BRACKET_KEY], "", [BRACKET_KEY, "abcd"]) != Redacted(Concat([BRACKET_KEY, "abcd"]), [BRACKET_KEY])
  {
    hide Replace, Redacted, Streamed, Trim;
    TrimTrims(BRACKET_KEY);
    assert Agrees(BRACKET_KEY, -9, PLACEHOLDER) && FirstAt(BRACKET_KEY, -9);
    RedactedIsReplace(BRACKET_KEY + "abcd", BRACKET_KEY);
    KeyAlone(BRACKET_KEY, "abcd", PLACEHOLDER);
    assert PLACEHOLDER + "abcd" == "[redacted]abcd";
    assert OccursAt("[redacted]abcd", BRACKET_KEY, 9);
    WrongAfterPlaceholder(BRACKET_KEY, -9, PLACEHOLDER);
    assert BRACKET_KEY[1..] == "abcd";
    TwoChunks(BRACKET_KEY, BRACKET_KEY, "abcd");
  }
}
