/** A promotional discount code and the rule that decides whether it may be used. */
module PromoCodeModel {
  import opened Wrappers

  /** A stored promo code. Instants are integers on one clock (seconds since an epoch);
      `usageLimit` and `expiresAt` are the nullable columns. */
  datatype PromoCode = PromoCode(
    code: string,
    discountPercentage: real,
    isActive: bool,
    usageLimit: Option<int>,
    timesUsed: int,
    expiresAt: Option<int>)

  /** `PromoCode.is_valid`, with the clock reading passed in as `now`. */
  predicate IsValid(p: PromoCode, now: int)
  {
    if !p.isActive then false
    else if p.expiresAt.Some? && now > p.expiresAt.value then false
    else if p.usageLimit.Some? && p.timesUsed >= p.usageLimit.value then false
    else true
  }

  /** The three guards, stated as one conjunction. */
  lemma IsValidIff(p: PromoCode, now: int)
    ensures IsValid(p, now) <==>
              && p.isActive
              && (p.expiresAt.None? || now <= p.expiresAt.value)
              && (p.usageLimit.None? || p.timesUsed < p.usageLimit.value)
  {
  }

  /** An inactive code is never valid, whatever its other fields. */
  lemma InactiveNeverValid(p: PromoCode, now: int)
    requires !p.isActive
    ensures !IsValid(p, now)
  {
  }

  /** Expiry is strict: a code is still valid at its expiry instant and invalid just after;
      a code without expiry never expires. */
  lemma ExpiryStrict(p: PromoCode, now: int)
    requires p.isActive && (p.usageLimit.None? || p.timesUsed < p.usageLimit.value)
    ensures p.expiresAt.None? ==> IsValid(p, now)
    ensures p.expiresAt.Some? ==> (IsValid(p, now) <==> now <= p.expiresAt.value)
    ensures p.expiresAt.Some? ==> IsValid(p, p.expiresAt.value) && !IsValid(p, p.expiresAt.value + 1)
  {
  }

  /** A null usage limit is unlimited; otherwise the code is used up once `timesUsed` reaches it. */
  lemma UsageLimitRule(p: PromoCode, now: int)
    requires p.isActive && (p.expiresAt.None? || now <= p.expiresAt.value)
    ensures p.usageLimit.None? ==> IsValid(p, now)
    ensures p.usageLimit.Some? ==> (IsValid(p, now) <==> p.timesUsed < p.usageLimit.value)
  {
  }

  /** Validity can only be lost as time passes, never regained. */
  lemma ValidEarlier(p: PromoCode, earlier: int, later: int)
    requires earlier <= later && IsValid(p, later)
    ensures IsValid(p, earlier)
  {
  }
}

/** The validate endpoint: look the code up, then report validity and one reason. */
module PromoCodeRoutes {
  import opened Wrappers
  import opened Text
  import opened PromoCodeModel

  /** The response messages. `Applied(d)` is "Promo code applied! You save {d}%". */
  datatype Message =
    | InvalidPromoCode
    | NoLongerActive
    | HasExpired
    | UsageLimitReached
    | Applied(discount: real)

  datatype PromoCodeResponse = PromoCodeResponse(
    code: string,
    discountPercentage: real,
    isValid: bool,
    message: Message)

  /** The index of the first stored code whose text satisfies `matches`. */
  function FindFirst(codes: seq<PromoCode>, matches: string -> bool): (r: Option<nat>)
    ensures r.Some? ==> r.value < |codes| && matches(codes[r.value].code)
    ensures r.Some? ==> forall j :: 0 <= j < r.value ==> !matches(codes[j].code)
    ensures r.None? <==> forall j :: 0 <= j < |codes| ==> !matches(codes[j].code)
  {
    if codes == [] then None
    else if matches(codes[0].code) then Some(0)
    else
      match FindFirst(codes[1..], matches)
      case None => None
      case Some(i) => Some(i + 1)
  }

  /** Case-insensitive equality: what the lookup's comment says it does. */
  predicate SameCode(stored: string, input: string)
  {
    ToLower(stored) == ToLower(input)
  }

  /** How the database reads a LIKE pattern sent without an ESCAPE clause: SQLite has
      no escape character; PostgreSQL and MySQL take `\` as one. */
  datatype Dialect = NoEscape | BackslashEscape

  predicate IsEscape(c: char, d: Dialect)
  {
    d == BackslashEscape && c == '\\'
  }

  /** SQL `LIKE`: `%` matches any run of characters, `_` any one character, the escape
      character (if the dialect has one) makes the next pattern character literal, and
      every other character matches itself. A pattern ending in the escape matches nothing. */
  predicate Like(text: string, pattern: string, d: Dialect)
    decreases |text| + |pattern|
  {
    if pattern == [] then text == []
    else if IsEscape(pattern[0], d) then
      |pattern| >= 2 && text != [] && text[0] == pattern[1] && Like(text[1..], pattern[2..], d)
    else if pattern[0] == '%' then Like(text, pattern[1..], d) || (text != [] && Like(text[1..], pattern, d))
    else if pattern[0] == '_' then text != [] && Like(text[1..], pattern[1..], d)
    else text != [] && text[0] == pattern[0] && Like(text[1..], pattern[1..], d)
  }

  /** `column.ilike(input)`: LIKE after lower-casing both sides. */
  predicate ILike(stored: string, input: string, d: Dialect)
  {
    Like(ToLower(stored), ToLower(input), d)
  }

  /** The lookup as intended: the first code equal to the input up to case. */
  function FindCode(codes: seq<PromoCode>, input: string): Option<nat>
  {
    FindFirst(codes, stored => SameCode(stored, input))
  }

  /** The lookup as written: the first code the input matches as an ILIKE pattern. */
  function FindCodeAsWritten(codes: seq<PromoCode>, input: string, d: Dialect): Option<nat>
  {
    FindFirst(codes, stored => ILike(stored, input, d))
  }

  /** The reason chain for a code that failed `is_valid`, read at clock value `now`. */
  function Reason(p: PromoCode, now: int): Message
  {
    if !p.isActive then NoLongerActive
    else if p.expiresAt.Some? && p.expiresAt.value < now then HasExpired
    else if p.usageLimit.Some? && p.timesUsed >= p.usageLimit.value then UsageLimitReached
    else InvalidPromoCode
  }

  /** The response, given the lookup's outcome. `validAt` is the clock read by
      `is_valid`, `reasonAt` the later read in the reason chain. */
  function Respond(codes: seq<PromoCode>, input: string, found: Option<nat>, validAt: int, reasonAt: int): PromoCodeResponse
    requires found.Some? ==> found.value < |codes|
  {
    match found
    case None => PromoCodeResponse(input, 0.0, false, InvalidPromoCode)
    case Some(i) =>
      var p := codes[i];
      if !IsValid(p, validAt) then PromoCodeResponse(p.code, p.discountPercentage, false, Reason(p, reasonAt))
      else PromoCodeResponse(p.code, p.discountPercentage, true, Applied(p.discountPercentage))
  }

  /** `validate_promo_code` with the intended case-insensitive lookup. */
  function ValidatePromoCode(codes: seq<PromoCode>, input: string, validAt: int, reasonAt: int): PromoCodeResponse
  {
    Respond(codes, input, FindCode(codes, input), validAt, reasonAt)
  }

  /** `validate_promo_code` with the ILIKE lookup the code performs. */
  function ValidatePromoCodeAsWritten(codes: seq<PromoCode>, input: string, d: Dialect, validAt: int, reasonAt: int): PromoCodeResponse
  {
    Respond(codes, input, FindCodeAsWritten(codes, input, d), validAt, reasonAt)
  }

  // ------------------------------------------------------------ response properties

  /** An unknown code echoes the input with discount 0 and "Invalid promo code". */
  lemma NotFoundResponse(codes: seq<PromoCode>, input: string, validAt: int, reasonAt: int)
    requires forall j :: 0 <= j < |codes| ==> !SameCode(codes[j].code, input)
    ensures ValidatePromoCode(codes, input, validAt, reasonAt) == PromoCodeResponse(input, 0.0, false, InvalidPromoCode)
  {
  }

  /** The lookup returns the first index whose code matches. */
  lemma FindCodeAt(codes: seq<PromoCode>, input: string, i: nat)
    requires i < |codes| && SameCode(codes[i].code, input)
    requires forall j :: 0 <= j < i ==> !SameCode(codes[j].code, input)
    ensures FindCode(codes, input) == Some(i)
  {
    var m := stored => SameCode(stored, input);
    assert m(codes[i].code);
  }

  /** A found code, valid or not, is reported with its stored text and stored discount,
      and `is_valid` in the response is the model's `is_valid()`. */
  lemma FoundResponse(codes: seq<PromoCode>, input: string, validAt: int, reasonAt: int, i: nat)
    requires i < |codes| && SameCode(codes[i].code, input)
    requires forall j :: 0 <= j < i ==> !SameCode(codes[j].code, input)
    ensures var r := ValidatePromoCode(codes, input, validAt, reasonAt);
      && r.code == codes[i].code
      && r.discountPercentage == codes[i].discountPercentage
      && r.isValid == IsValid(codes[i], validAt)
      && (r.isValid ==> r.message == Applied(codes[i].discountPercentage))
      && (!r.isValid ==> r.message == Reason(codes[i], reasonAt))
  {
  }

  /** A response is valid exactly when some code matches and the first one is valid. */
  lemma ValidIff(codes: seq<PromoCode>, input: string, validAt: int, reasonAt: int)
    ensures ValidatePromoCode(codes, input, validAt, reasonAt).isValid <==>
              FindCode(codes, input).Some? && IsValid(codes[FindCode(codes, input).value], validAt)
  {
  }

  /** With one clock reading the reasons follow inactive > expired > usage limit, and the
      first that holds is reported; "Invalid promo code" is then never a reason. */
  lemma ReasonPriority(p: PromoCode, now: int)
    requires !IsValid(p, now)
    ensures !p.isActive ==> Reason(p, now) == NoLongerActive
    ensures p.isActive && p.expiresAt.Some? && now > p.expiresAt.value ==> Reason(p, now) == HasExpired
    ensures p.isActive && (p.expiresAt.None? || now <= p.expiresAt.value) ==> Reason(p, now) == UsageLimitReached
    ensures Reason(p, now) != InvalidPromoCode
  {
  }

  /** The generic fallback is unreachable for a found code, provided the reason chain reads
      the clock no earlier than `is_valid` did. */
  lemma FallbackUnreachable(codes: seq<PromoCode>, input: string, validAt: int, reasonAt: int)
    requires FindCode(codes, input).Some? && validAt <= reasonAt
    ensures ValidatePromoCode(codes, input, validAt, reasonAt).message != InvalidPromoCode
  {
    var p := codes[FindCode(codes, input).value];
    if !IsValid(p, validAt) {
      if p.isActive && p.expiresAt.Some? && validAt > p.expiresAt.value {
        assert p.expiresAt.value < reasonAt;
      }
    }
  }

  /** Were the second reading earlier than the first, an expired code would fall through to
      the fallback message. */
  lemma FallbackWithClockSkew()
    ensures var codes := [PromoCode("SALE", 10.0, true, None, 0, Some(100))];
      ValidatePromoCode(codes, "SALE", 101, 100) == PromoCodeResponse("SALE", 10.0, false, InvalidPromoCode)
  {
    assert ToLower("SALE") == "sale";
  }

  // ------------------------------------------------------------ ILIKE against equality

  /** `s`, read as a pattern in dialect `d`, holds no wildcard and no escape character. */
  predicate Literal(s: string, d: Dialect)
  {
    forall i :: 0 <= i < |s| ==> s[i] != '%' && s[i] != '_' && !IsEscape(s[i], d)
  }

  /** A literal pattern matches exactly the text equal to it. */
  lemma {:induction false} LikeWithoutWildcards(text: string, pattern: string, d: Dialect)
    requires Literal(pattern, d)
    ensures Like(text, pattern, d) <==> text == pattern
    decreases |pattern|
  {
    if pattern != [] && text != [] {
      LikeWithoutWildcards(text[1..], pattern[1..], d);
      if text[1..] == pattern[1..] && text[0] == pattern[0] {
        assert text == [text[0]] + text[1..];
        assert pattern == [pattern[0]] + pattern[1..];
      }
    }
  }

  /** `%` alone matches every text. */
  lemma {:induction false} PercentMatchesAll(text: string, d: Dialect)
    ensures Like(text, "%", d)
    decreases |text|
  {
    if text != [] {
      PercentMatchesAll(text[1..], d);
    }
  }

  /** With `\` as the escape, an escaped character matches only itself. */
  lemma EscapedCharMatches(c: char, text: string, rest: string)
    ensures Like([c] + text, ['\\', c] + rest, BackslashEscape) <==> Like(text, rest, BackslashEscape)
  {
    assert ([c] + text)[1..] == text;
    assert (['\\', c] + rest)[2..] == rest;
  }

  lemma LowerKeepsLiteral(s: string, d: Dialect)
    requires Literal(s, d)
    ensures Literal(ToLower(s), d)
  {
  }

  /** For an input that is literal in the database's dialect (free of `%` and `_`, and
      of `\` where that is the escape), the written lookup is the intended one. */
  lemma AsWrittenAgreesWithoutWildcards(codes: seq<PromoCode>, input: string, d: Dialect, validAt: int, reasonAt: int)
    requires Literal(input, d)
    ensures ValidatePromoCodeAsWritten(codes, input, d, validAt, reasonAt) == ValidatePromoCode(codes, input, validAt, reasonAt)
  {
    LowerKeepsLiteral(input, d);
    forall j | 0 <= j < |codes|
      ensures ILike(codes[j].code, input, d) == SameCode(codes[j].code, input)
    {
      LikeWithoutWildcards(ToLower(codes[j].code), ToLower(input), d);
    }
    FindFirstAgree(codes, stored => ILike(stored, input, d), stored => SameCode(stored, input));
  }

  /** Two tests that agree on every stored code find the same one. */
  lemma {:induction false} FindFirstAgree(codes: seq<PromoCode>, m1: string -> bool, m2: string -> bool)
    requires forall j :: 0 <= j < |codes| ==> m1(codes[j].code) == m2(codes[j].code)
    ensures FindFirst(codes, m1) == FindFirst(codes, m2)
  {
    if codes != [] {
      assert forall j :: 0 <= j < |codes| - 1 ==> codes[1..][j] == codes[j + 1];
      FindFirstAgree(codes[1..], m1, m2);
    }
  }
}

/** Three of the seeded promo codes, and what the endpoint answers for them. */
module PromoCodeSeeds {
  import opened Wrappers
  import opened Text
  import opened PromoCodeModel
  import opened PromoCodeRoutes

  const Day: int := 86400

  /** Three of the seeded codes, created at instant `seededAt`
      (EXPIRED expires one day before that). */
  function SeedCodes(seededAt: int): seq<PromoCode>
  {
    [ PromoCode("WELCOME10", 10.0, true, None, 0, None),
      PromoCode("EXPIRED", 50.0, true, None, 0, Some(seededAt - Day)),
      PromoCode("INACTIVE", 40.0, false, None, 0, None) ]
  }

  /** Codes of different lengths never match, whatever their case. */
  lemma DifferentLengths(stored: string, input: string)
    requires |stored| != |input|
    ensures !SameCode(stored, input)
  {
    assert |ToLower(stored)| != |ToLower(input)|;
  }

  lemma WelcomeMatches()
    ensures SameCode("WELCOME10", "welcome10")
  {
    ToLowerAgree("WELCOME10", "welcome10");
  }

  lemma ExpiredMatches()
    ensures SameCode("EXPIRED", "Expired")
  {
    ToLowerAgree("EXPIRED", "Expired");
  }

  lemma WelcomeFound(seededAt: int)
    ensures FindCode(SeedCodes(seededAt), "welcome10") == Some(0)
  {
    WelcomeMatches();
  }

  lemma ExpiredFound(seededAt: int)
    ensures FindCode(SeedCodes(seededAt), "Expired") == Some(1)
  {
    var codes := SeedCodes(seededAt);
    DifferentLengths(codes[0].code, "Expired");
    ExpiredMatches();
    assert SameCode(codes[1].code, "Expired");
    assert forall j :: 0 <= j < 1 ==> !SameCode(codes[j].code, "Expired");
    FindCodeAt(codes, "Expired", 1);
  }

  lemma InactiveFound(seededAt: int)
    ensures FindCode(SeedCodes(seededAt), "INACTIVE") == Some(2)
  {
    var codes := SeedCodes(seededAt);
    forall j | 0 <= j < 2
      ensures !SameCode(codes[j].code, "INACTIVE")
    {
      DifferentLengths(codes[j].code, "INACTIVE");
    }
    assert SameCode(codes[2].code, "INACTIVE");
    FindCodeAt(codes, "INACTIVE", 2);
  }

  /** "welcome10" finds WELCOME10 whatever its case, and it is applied. */
  lemma WelcomeExample(seededAt: int, now: int)
    ensures ValidatePromoCode(SeedCodes(seededAt), "welcome10", now, now) ==
              PromoCodeResponse("WELCOME10", 10.0, true, Applied(10.0))
  {
    WelcomeFound(seededAt);
  }

  lemma ExpiredExample(seededAt: int, now: int)
    requires now >= seededAt
    ensures ValidatePromoCode(SeedCodes(seededAt), "Expired", now, now) ==
              PromoCodeResponse("EXPIRED", 50.0, false, HasExpired)
  {
    var codes := SeedCodes(seededAt);
    var p := codes[1];
    ExpiredFound(seededAt);
    assert p == PromoCode("EXPIRED", 50.0, true, None, 0, Some(seededAt - Day));
    assert !IsValid(p, now) && Reason(p, now) == HasExpired;
    assert Respond(codes, "Expired", Some(1), now, now) == PromoCodeResponse(p.code, p.discountPercentage, false, HasExpired);
  }

  lemma InactiveExample(seededAt: int, now: int)
    ensures ValidatePromoCode(SeedCodes(seededAt), "INACTIVE", now, now) ==
              PromoCodeResponse("INACTIVE", 40.0, false, NoLongerActive)
  {
    InactiveFound(seededAt);
  }

  /** As written, the input "%" matches the first stored code and is accepted with its
      discount, in either dialect. */
  lemma PercentAcceptedAsWritten(seededAt: int, now: int, d: Dialect)
    ensures ValidatePromoCodeAsWritten(SeedCodes(seededAt), "%", d, now, now) ==
              PromoCodeResponse("WELCOME10", 10.0, true, Applied(10.0))
  {
    var codes := SeedCodes(seededAt);
    assert ToLower("%") == "%";
    PercentMatchesAll(ToLower(codes[0].code), d);
    assert ILike(codes[0].code, "%", d);
    assert FindCodeAsWritten(codes, "%", d) == Some(0);
  }

  lemma EscapedWelcomeMatches()
    ensures ILike("WELCOME10", "WELCOME\\10", BackslashEscape)
  {
    LowerIs("WELCOME10", "welcome10");
    LowerIs("WELCOME\\10", "welcome\\10");
    EscapedWelcomeLike();
  }

  lemma LowerIs(s: string, l: string)
    requires |s| == |l| && forall i :: 0 <= i < |s| ==> LowerChar(s[i]) == l[i]
    ensures ToLower(s) == l
  {
  }

  lemma EscapedWelcomeLike()
    ensures Like("welcome10", "welcome\\10", BackslashEscape)
  {
    assert "welcome10" == "welcome" + ['1'] + "0";
    assert "welcome\\10" == "welcome" + ['\\', '1'] + "0";
    EscapedPrefix("welcome", "0", "0");
    EscapedCharMatches('1', "0", "0");
    LikeWithoutWildcards("0", "0", BackslashEscape);
  }

  /** A literal prefix shared by text and pattern can be consumed. */
  lemma {:induction false} EscapedPrefix(p: string, text: string, rest: string)
    requires Literal(p, BackslashEscape)
    ensures Like(p + ['1'] + text, p + ['\\', '1'] + rest, BackslashEscape) <==>
            Like(['1'] + text, ['\\', '1'] + rest, BackslashEscape)
    decreases |p|
  {
    if p != [] {
      assert (p + ['1'] + text)[1..] == p[1..] + ['1'] + text;
      assert (p + ['\\', '1'] + rest)[1..] == p[1..] + ['\\', '1'] + rest;
      EscapedPrefix(p[1..], text, rest);
    }
  }

  /** With `\` as the escape, "WELCOME\10" matches WELCOME10 and is accepted, while the
      intended lookup finds no such code. */
  lemma EscapedAcceptedAsWritten(seededAt: int, now: int)
    ensures ValidatePromoCodeAsWritten(SeedCodes(seededAt), "WELCOME\\10", BackslashEscape, now, now) ==
              PromoCodeResponse("WELCOME10", 10.0, true, Applied(10.0))
    ensures ValidatePromoCode(SeedCodes(seededAt), "WELCOME\\10", now, now) ==
              PromoCodeResponse("WELCOME\\10", 0.0, false, InvalidPromoCode)
  {
    EscapedFoundAsWritten(seededAt);
    EscapedNotFound(seededAt, now);
  }

  lemma EscapedFoundAsWritten(seededAt: int)
    ensures FindCodeAsWritten(SeedCodes(seededAt), "WELCOME\\10", BackslashEscape) == Some(0)
  {
    EscapedWelcomeMatches();
  }

  lemma EscapedNotFound(seededAt: int, now: int)
    ensures ValidatePromoCode(SeedCodes(seededAt), "WELCOME\\10", now, now) ==
              PromoCodeResponse("WELCOME\\10", 0.0, false, InvalidPromoCode)
  {
    var codes := SeedCodes(seededAt);
    forall j | 0 <= j < |codes|
      ensures !SameCode(codes[j].code, "WELCOME\\10")
    {
      DifferentLengths(codes[j].code, "WELCOME\\10");
    }
    NotFoundResponse(codes, "WELCOME\\10", now, now);
  }

  /** As intended, "%" names no seeded code and is rejected. */
  lemma PercentRejected(seededAt: int, now: int)
    ensures ValidatePromoCode(SeedCodes(seededAt), "%", now, now) ==
              PromoCodeResponse("%", 0.0, false, InvalidPromoCode)
  {
    var codes := SeedCodes(seededAt);
    forall j | 0 <= j < |codes|
      ensures !SameCode(codes[j].code, "%")
    {
      DifferentLengths(codes[j].code, "%");
    }
    NotFoundResponse(codes, "%", now, now);
  }
}
