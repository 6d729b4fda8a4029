/** The password rules: the strength check run at registration, and the 72-byte
    truncation applied before a password reaches bcrypt, both when hashing and verifying. */
module Security {
  import opened Text

  // ------------------------------------------------------------ strength

  predicate HasUpper(s: string) { exists i :: 0 <= i < |s| && IsUpper(s[i]) }

  predicate HasLower(s: string) { exists i :: 0 <= i < |s| && IsLower(s[i]) }

  predicate HasDigit(s: string) { exists i :: 0 <= i < |s| && IsDigit(s[i]) }

  function LengthMessage(minLength: nat): string
  {
    "Password must be at least " + NatToString(minLength) + " characters long"
  }

  const UpperMessage: string := "Password must contain at least one uppercase letter"
  const LowerMessage: string := "Password must contain at least one lowercase letter"
  const DigitMessage: string := "Password must contain at least one number"

  /** `validate_password_strength`, with PASSWORD_MIN_LENGTH passed in. */
  function ValidatePasswordStrength(password: string, minLength: nat): (bool, string)
  {
    if |password| < minLength then (false, LengthMessage(minLength))
    else if !HasUpper(password) then (false, UpperMessage)
    else if !HasLower(password) then (false, LowerMessage)
    else if !HasDigit(password) then (false, DigitMessage)
    else (true, "")
  }

  /** The verdict is (True, "") exactly when all four requirements hold; a rejection always
      carries a message. */
  lemma StrengthIff(password: string, minLength: nat)
    ensures var r := ValidatePasswordStrength(password, minLength);
      && (r.0 <==> |password| >= minLength && HasUpper(password) && HasLower(password) && HasDigit(password))
      && (r.0 <==> r == (true, ""))
      && (!r.0 ==> r.1 != "")
  {
  }

  /** The four messages are distinct, whatever the minimum length. */
  lemma MessagesDistinct(minLength: nat)
    ensures LengthMessage(minLength) != UpperMessage
    ensures LengthMessage(minLength) != LowerMessage
    ensures LengthMessage(minLength) != DigitMessage
    ensures UpperMessage != LowerMessage && LowerMessage != DigitMessage && DigitMessage != UpperMessage
  {
    var m := LengthMessage(minLength);
    assert m[17] == 'a' != UpperMessage[17];
    assert m[17] != LowerMessage[17];
    assert m[17] != DigitMessage[17];
    assert UpperMessage[35] != LowerMessage[35];
    assert LowerMessage[35] != DigitMessage[35];
    assert UpperMessage[35] != DigitMessage[35];
  }

  /** The message names the first requirement that fails: length, then uppercase,
      then lowercase, then digit. */
  lemma FirstFailureReported(password: string, minLength: nat)
    ensures var r := ValidatePasswordStrength(password, minLength);
      && (r.1 == LengthMessage(minLength) <==> |password| < minLength)
      && (r.1 == UpperMessage <==> |password| >= minLength && !HasUpper(password))
      && (r.1 == LowerMessage <==> |password| >= minLength && HasUpper(password) && !HasLower(password))
      && (r.1 == DigitMessage <==>
            |password| >= minLength && HasUpper(password) && HasLower(password) && !HasDigit(password))
  {
    MessagesDistinct(minLength);
  }

  lemma AcceptedExample()
    ensures ValidatePasswordStrength("Secret12", 8) == (true, "")
  {
    assert IsUpper("Secret12"[0]) && IsLower("Secret12"[1]) && IsDigit("Secret12"[6]);
  }

  lemma ShortPasswordExample()
    ensures ValidatePasswordStrength("Secret1", 8) == (false, LengthMessage(8))
    ensures LengthMessage(8) == "Password must be at least " + "8" + " characters long"
  {
    assert NatToString(8) == "8";
  }

  lemma NoUpperExample()
    ensures ValidatePasswordStrength("secret12", 8) == (false, UpperMessage)
  {
    assert IsLower("secret12"[0]) && IsDigit("secret12"[6]);
  }

  lemma NoLowerExample()
    ensures ValidatePasswordStrength("SECRET12", 8) == (false, LowerMessage)
  {
    assert IsUpper("SECRET12"[0]) && IsDigit("SECRET12"[6]);
  }

  lemma NoDigitExample()
    ensures ValidatePasswordStrength("Secretive", 8) == (false, DigitMessage)
  {
    assert IsUpper("Secretive"[0]) && IsLower("Secretive"[1]);
  }

  lemma StrengthExamples()
    ensures ValidatePasswordStrength("Secret12", 8) == (true, "")
    ensures ValidatePasswordStrength("Secret1", 8) == (false, LengthMessage(8))
    ensures LengthMessage(8) == "Password must be at least " + "8" + " characters long"
    ensures ValidatePasswordStrength("secret12", 8) == (false, UpperMessage)
    ensures ValidatePasswordStrength("SECRET12", 8) == (false, LowerMessage)
    ensures ValidatePasswordStrength("Secretive", 8) == (false, DigitMessage)
  {
    AcceptedExample();
    ShortPasswordExample();
    NoUpperExample();
    NoLowerExample();
    NoDigitExample();
  }


  // ------------------------------------------------------------ UTF-8

  newtype byte = x: int | 0 <= x < 256

  /** How many bytes UTF-8 (RFC 3629, section 3) spends on a character. */
  function Utf8Width(c: char): (n: nat)
    ensures 1 <= n <= 4
  {
    if c as int < 0x80 then 1
    else if c as int < 0x800 then 2
    else if c as int < 0x10000 then 3
    else 4
  }

  function Utf8Size(s: string): nat
  {
    if s == [] then 0 else Utf8Width(s[0]) + Utf8Size(s[1..])
  }

  /** The UTF-8 encoding of one character (RFC 3629, section 3). */
  function EncodeChar(c: char): (b: seq<byte>)
    ensures |b| == Utf8Width(c)
  {
    var n := c as int;
    if n < 0x80 then [n as byte]
    else if n < 0x800 then [(0xC0 + n / 64) as byte, (0x80 + n % 64) as byte]
    else if n < 0x10000 then
      [(0xE0 + n / 4096) as byte, (0x80 + n / 64 % 64) as byte, (0x80 + n % 64) as byte]
    else
      [(0xF0 + n / 262144) as byte, (0x80 + n / 4096 % 64) as byte,
       (0x80 + n / 64 % 64) as byte, (0x80 + n % 64) as byte]
  }

  /** `str.encode('utf-8')`. */
  function Encode(s: string): (b: seq<byte>)
    ensures |b| == Utf8Size(s)
  {
    if s == [] then [] else EncodeChar(s[0]) + Encode(s[1..])
  }

  /** The length a lead byte announces; 0 for a continuation byte or an invalid one. */
  function LeadWidth(b: byte): nat
  {
    if b < 0x80 then 1
    else if b < 0xC0 then 0
    else if b < 0xE0 then 2
    else if b < 0xF0 then 3
    else if b < 0xF8 then 4
    else 0
  }

  /** Each encoded character starts with a byte announcing its length, followed by
      continuation bytes only; so a proper prefix of it is an incomplete sequence. */
  lemma EncodeCharShape(c: char)
    ensures LeadWidth(EncodeChar(c)[0]) == Utf8Width(c)
    ensures forall k :: 1 <= k < |EncodeChar(c)| ==> LeadWidth(EncodeChar(c)[k]) == 0
  {
  }

  lemma {:induction false} EncodeAppend(s: string, t: string)
    ensures Encode(s + t) == Encode(s) + Encode(t)
  {
    if s == [] {
      assert s + t == t;
    } else {
      assert (s + t)[1..] == s[1..] + t;
      EncodeAppend(s[1..], t);
    }
  }

  predicate IsContinuation(b: byte)
  {
    0x80 <= b < 0xC0
  }

  /** The code point a lead byte of width `|b|` and its continuation bytes spell. */
  function CodePoint(b: seq<byte>): int
    requires 1 <= |b| <= 4 && LeadWidth(b[0]) == |b|
  {
    if |b| == 1 then b[0] as int
    else if |b| == 2 then (b[0] as int - 0xC0) * 64 + (b[1] as int - 0x80)
    else if |b| == 3 then (b[0] as int - 0xE0) * 4096 + (b[1] as int - 0x80) * 64 + (b[2] as int - 0x80)
    else (b[0] as int - 0xF0) * 262144 + (b[1] as int - 0x80) * 4096 + (b[2] as int - 0x80) * 64 + (b[3] as int - 0x80)
  }

  /** A Unicode scalar value: a code point that is not a surrogate. */
  predicate IsScalar(v: int)
  {
    0 <= v < 0xD800 || 0xE000 <= v < 0x110000
  }

  /** `b` starts with one well-formed sequence of `w` bytes: the lead byte announcing `w`,
      `w - 1` continuation bytes, and a scalar value not encodable in fewer bytes. */
  predicate WellFormedAt(b: seq<byte>, w: nat)
  {
    && 1 <= w <= |b| && LeadWidth(b[0]) == w
    && (forall k :: 1 <= k < w ==> IsContinuation(b[k]))
    && IsScalar(CodePoint(b[..w]))
    && Utf8Width(CodePoint(b[..w]) as char) == w
  }

  /** `bytes.decode('utf-8', errors='ignore')`: each well-formed sequence yields its
      character, and every byte that does not start one is dropped. */
  function DecodeIgnore(b: seq<byte>): (s: string)
    ensures |s| <= |b|
    decreases |b|
  {
    if b == [] then []
    else if WellFormedAt(b, LeadWidth(b[0])) then
      [CodePoint(b[..LeadWidth(b[0])]) as char] + DecodeIgnore(b[LeadWidth(b[0])..])
    else DecodeIgnore(b[1..])
  }

  /** Reading a character's bytes back gives its code point. */
  lemma CodePointOfEncode(c: char)
    ensures CodePoint(EncodeChar(c)) == c as int
  {
    EncodeCharShape(c);
    var n := c as int;
    if n >= 0x10000 {
      SixBitDigits(n / 64);
      SixBitDigits(n);
      assert n / 64 / 64 == n / 4096 && n / 4096 / 64 == n / 262144;
    } else if n >= 0x800 {
      SixBitDigits(n);
      assert n / 64 / 64 == n / 4096;
    }
  }

  /** Splitting off the low six bits. */
  lemma SixBitDigits(n: nat)
    ensures n == n / 64 * 64 + n % 64
    ensures n / 64 == n / 64 / 64 * 64 + n / 64 % 64
  {
  }

  /** A character's encoding is decoded back to the character, whatever follows it. */
  lemma DecodeChar(c: char, rest: seq<byte>)
    ensures DecodeIgnore(EncodeChar(c) + rest) == [c] + DecodeIgnore(rest)
  {
    var e := EncodeChar(c);
    var b := e + rest;
    var w := Utf8Width(c);
    EncodeCharShape(c);
    CodePointOfEncode(c);
    assert b[..w] == e && b[w..] == rest;
    assert forall k :: 1 <= k < w ==> IsContinuation(b[k]) by {
      forall k | 1 <= k < w
        ensures IsContinuation(b[k])
      {
        assert b[k] == e[k];
      }
    }
    assert WellFormedAt(b, LeadWidth(b[0]));
  }

  /** Continuation bytes on their own decode to nothing. */
  lemma {:induction false} DecodeContinuations(b: seq<byte>)
    requires forall k :: 0 <= k < |b| ==> IsContinuation(b[k])
    ensures DecodeIgnore(b) == []
    decreases |b|
  {
    if b != [] {
      DecodeContinuations(b[1..]);
    }
  }

  /** A proper prefix of a character's encoding decodes to nothing. */
  lemma DecodePartial(c: char, k: nat)
    requires k < Utf8Width(c)
    ensures DecodeIgnore(EncodeChar(c)[..k]) == []
  {
    var p := EncodeChar(c)[..k];
    EncodeCharShape(c);
    if k > 0 {
      assert !WellFormedAt(p, LeadWidth(p[0]));
      DecodeContinuations(p[1..]);
    }
  }

  /** Decoding inverts encoding, and a trailing byte string is decoded on its own. */
  lemma {:induction false} DecodeEncode(s: string, tail: seq<byte>)
    ensures DecodeIgnore(Encode(s) + tail) == s + DecodeIgnore(tail)
  {
    if s != [] {
      var c, rest := s[0], Encode(s[1..]) + tail;
      assert Encode(s) + tail == EncodeChar(c) + rest;
      DecodeChar(c, rest);
      DecodeEncode(s[1..], tail);
      assert s == [c] + s[1..];
    } else {
      assert Encode(s) + tail == tail;
    }
  }

  /** The round trip `s.encode('utf-8').decode('utf-8', errors='ignore') == s`. */
  lemma DecodeEncodeRoundTrip(s: string)
    ensures DecodeIgnore(Encode(s)) == s
  {
    DecodeEncode(s, []);
    assert Encode(s) + [] == Encode(s);
  }

  /** Python's `b[:n]`: the first `n` bytes, or all of them when there are fewer. */
  function Take(b: seq<byte>, n: nat): (r: seq<byte>)
    ensures r <= b && |r| == if n < |b| then n else |b|
  {
    if n < |b| then b[..n] else b
  }

  // ------------------------------------------------------------ the bcrypt truncation

  const BcryptLimit: nat := 72

  /** The longest prefix of whole characters whose encoding fits in `limit` bytes;
      TruncateDecodes shows it is what encoding, slicing and decoding produce. */
  function TruncateTo(s: string, limit: nat): (t: string)
    ensures t <= s
    ensures Utf8Size(t) <= limit
  {
    if s == [] || Utf8Width(s[0]) > limit then []
    else [s[0]] + TruncateTo(s[1..], limit - Utf8Width(s[0]))
  }

  /** What `hash_password` and `verify_password` hand to bcrypt:
      `password.encode('utf-8')[:72].decode('utf-8', errors='ignore')`. */
  function BcryptInput(password: string): (t: string)
    ensures t <= password && Utf8Size(t) <= BcryptLimit
    ensures t == TruncateTo(password, BcryptLimit)
  {
    TruncateDecodes(password, BcryptLimit);
    DecodeIgnore(Take(Encode(password), BcryptLimit))
  }

  /** The prefix kept is the longest that fits: one more character would not. */
  lemma {:induction false} TruncateMaximal(s: string, limit: nat)
    ensures var t := TruncateTo(s, limit);
      |t| < |s| ==> Utf8Size(t) + Utf8Width(s[|t|]) > limit
  {
    if s != [] && Utf8Width(s[0]) <= limit {
      TruncateMaximal(s[1..], limit - Utf8Width(s[0]));
    }
  }

  /** A password that already fits is passed on whole. */
  lemma {:induction false} TruncateFits(s: string, limit: nat)
    requires Utf8Size(s) <= limit
    ensures TruncateTo(s, limit) == s
  {
    if s != [] {
      TruncateFits(s[1..], limit - Utf8Width(s[0]));
    }
  }

  lemma TruncateIdempotent(s: string, limit: nat)
    ensures TruncateTo(TruncateTo(s, limit), limit) == TruncateTo(s, limit)
  {
    TruncateFits(TruncateTo(s, limit), limit);
  }

  /** Once the first `limit` bytes are taken, whatever follows is ignored: passwords that
      agree on a long enough start reach bcrypt identically. */
  lemma {:induction false} TruncateIgnoresTail(s: string, rest: string, limit: nat)
    requires Utf8Size(s) >= limit
    ensures TruncateTo(s + rest, limit) == TruncateTo(s, limit)
  {
    if s != [] {
      assert (s + rest)[0] == s[0];
      if Utf8Width(s[0]) <= limit {
        assert (s + rest)[1..] == s[1..] + rest;
        TruncateIgnoresTail(s[1..], rest, limit - Utf8Width(s[0]));
      }
    }
  }

  /** In bytes: the slice `encode(s)[:limit]` is the encoding of the kept prefix, followed
      (when something is cut) by a proper prefix of the next character's encoding. */
  lemma TruncationBytes(s: string, limit: nat)
    ensures var t, e := TruncateTo(s, limit), Encode(s);
      && Encode(t) <= e
      && (|t| == |s| ==> |e| <= limit && Encode(t) == e)
      && (|t| < |s| ==>
            && limit < |e|
            && limit - |Encode(t)| < Utf8Width(s[|t|])
            && e[..limit] == Encode(t) + EncodeChar(s[|t|])[..limit - |Encode(t)|])
  {
    var t, e := TruncateTo(s, limit), Encode(s);
    var k := |t|;
    assert t == s[..k];
    EncodeSplit(s, k);
    TruncateMaximal(s, limit);
    if k < |s| {
      var rest := s[k..];
      assert rest[0] == s[k];
      SliceInto(Encode(t), EncodeChar(s[k]), Encode(rest[1..]), limit);
    }
  }

  /** Encoding, keeping the first `limit` bytes and decoding with errors ignored yields
      exactly the longest whole-character prefix that fits. */
  lemma TruncateDecodes(s: string, limit: nat)
    ensures DecodeIgnore(Take(Encode(s), limit)) == TruncateTo(s, limit)
  {
    var t, e := TruncateTo(s, limit), Encode(s);
    TruncationBytes(s, limit);
    if |t| == |s| {
      assert t == s;
      DecodeEncodeRoundTrip(s);
    } else {
      var k := limit - |Encode(t)|;
      DecodeEncode(t, EncodeChar(s[|t|])[..k]);
      DecodePartial(s[|t|], k);
    }
  }

  lemma EncodeSplit(s: string, k: nat)
    requires k <= |s|
    ensures Encode(s) == Encode(s[..k]) + Encode(s[k..])
  {
    assert s == s[..k] + s[k..];
    EncodeAppend(s[..k], s[k..]);
  }

  /** Cutting a + b + c inside b keeps a and the start of b. */
  lemma SliceInto(a: seq<byte>, b: seq<byte>, c: seq<byte>, n: nat)
    requires |a| <= n < |a| + |b|
    ensures (a + (b + c))[..n] == a + b[..n - |a|]
  {
  }

  lemma TruncateExample()
    ensures TruncateTo("añ", 2) == "a"
    ensures TruncateTo("añ", 3) == "añ"
  {
  }
}
