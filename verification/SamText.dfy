/** The character level of the SAM text protocol: the marker characters, escaping,
    unescaping and decimal numbers (libexio/exio/sam.h, libexio/sam.cc, libexio/utils.cc). */
module SamText {

  const MSG_START := '{'
  const MSG_END := '}'
  const MSG_DELIM := '\n'
  const SEQ_START := '['
  const SEQ_END := ']'
  const FIELD_DELIM := ','
  const VALUE_DELIM := '='
  const META_DELIM := ':'
  const ESCAPE := '\\'

  predicate IsSpecial(c: char) {
    || c == MSG_START || c == MSG_END || c == MSG_DELIM
    || c == SEQ_START || c == SEQ_END || c == FIELD_DELIM
    || c == VALUE_DELIM || c == META_DELIM || c == ESCAPE
  }

  // ----- Escaping -----

  function EscapeChar(c: char): string {
    if IsSpecial(c) then [ESCAPE, c] else [c]
  }

  /** Every special character is preceded by the escape character. */
  function Escape(v: string): string {
    if v == [] then [] else EscapeChar(v[0]) + Escape(v[1..])
  }

  lemma {:induction false} EscapeConcat(a: string, b: string)
    ensures Escape(a + b) == Escape(a) + Escape(b)
  {
    if a == [] {
      assert a + b == b;
    } else {
      EscapeConcat(a[1..], b);
      assert (a + b)[1..] == a[1..] + b;
    }
  }

  /** Text without special characters is its own escaped form. */
  lemma {:induction false} EscapeOfPlain(a: string)
    requires forall c :: c in a ==> !IsSpecial(c)
    ensures Escape(a) == a
  {
    if a != [] {
      EscapeOfPlain(a[1..]);
      assert a == [a[0]] + a[1..];
    }
  }

  /** How often the escape character is inserted. */
  function SpecialCount(v: string): nat {
    if v == [] then 0 else (if IsSpecial(v[0]) then 1 else 0) + SpecialCount(v[1..])
  }

  lemma {:induction false} EscapeLength(v: string)
    ensures |Escape(v)| == |v| + SpecialCount(v)
  {
    if v != [] { EscapeLength(v[1..]); }
  }

  // ----- Unescaping: the three token loops of the decoder are this one scan -----

  /** Scans from `p` to the first unescaped `delim` or to the end of `s`. The position
      can end up one past the end when the last character is an escape. */
  function ReadToken(s: string, p: nat, delim: char): (r: (string, nat))
    ensures r.1 >= p
    ensures r.1 < |s| ==> s[r.1] == delim
    decreases |s| - p
  {
    if p >= |s| || s[p] == delim then ("", p)
    else if s[p] == ESCAPE then
      if p + 1 < |s| then
        var (v, q) := ReadToken(s, p + 2, delim);
        ([s[p + 1]] + v, q)
      else ("", p + 2)
    else
      var (v, q) := ReadToken(s, p + 1, delim);
      ([s[p]] + v, q)
  }

  /** `t` stands in `s` at position `p`. */
  predicate At(s: string, p: nat, t: string) {
    AtFrom(s, p, t, 0)
  }

  /** From index `k` of `t` on. */
  predicate AtFrom(s: string, p: nat, t: string, k: nat)
    decreases |t| - k
  {
    if k >= |t| then p + |t| <= |s| else p + k < |s| && s[p + k] == t[k] && AtFrom(s, p, t, k + 1)
  }

  lemma {:induction false} AtFromMeans(s: string, p: nat, t: string, k: nat)
    ensures AtFrom(s, p, t, k) <==> p + |t| <= |s| && forall i :: k <= i < |t| ==> s[p + i] == t[i]
    decreases |t| - k
  {
    if k < |t| { AtFromMeans(s, p, t, k + 1); }
  }

  /** The predicate says what the slice says. */
  lemma AtIsSlice(s: string, p: nat, t: string)
    ensures At(s, p, t) <==> p + |t| <= |s| && s[p..p + |t|] == t
  {
    AtFromMeans(s, p, t, 0);
    if p + |t| <= |s| {
      var u := s[p..p + |t|];
      assert forall i :: 0 <= i < |t| ==> u[i] == s[p + i];
    }
  }

  lemma AtSplit(s: string, p: nat, a: string, b: string)
    ensures At(s, p, a + b) <==> At(s, p, a) && At(s, p + |a|, b)
  {
    AtIsSlice(s, p, a + b);
    AtIsSlice(s, p, a);
    AtIsSlice(s, p + |a|, b);
    if p + |a| + |b| <= |s| {
      var t := s[p..p + |a| + |b|];
      assert t[..|a|] == s[p..p + |a|];
      assert t[|a|..] == s[p + |a|..p + |a| + |b|];
      assert t == t[..|a|] + t[|a|..];
      assert (a + b)[..|a|] == a && (a + b)[|a|..] == b;
    }
  }

  /** `t` stands at `p` and is followed by `delim`. */
  predicate Before(s: string, p: nat, t: string, delim: char) {
    At(s, p, t) && p + |t| < |s| && s[p + |t|] == delim
  }

  /** Escaped text followed by a special delimiter reads back as the text. */
  lemma {:induction false} ReadEscaped(s: string, p: nat, v: string, delim: char)
    requires IsSpecial(delim) && delim != ESCAPE
    requires Before(s, p, Escape(v), delim)
    ensures ReadToken(s, p, delim) == (v, p + |Escape(v)|)
    decreases |v|
  {
    if v != [] {
      var c, tl := v[0], v[1..];
      AtSplit(s, p, EscapeChar(c), Escape(tl));
      ReadEscaped(s, p + |EscapeChar(c)|, tl, delim);
      assert IsSpecial(c) ==> AtFrom(s, p, EscapeChar(c), 1);
      assert v == [c] + tl;
    }
  }

  /** What may be written without escaping before `delim`. */
  predicate Clean(t: string, delim: char) {
    delim !in t && ESCAPE !in t
  }

  lemma ReadRaw(s: string, p: nat, t: string, delim: char)
    requires Clean(t, delim)
    requires Before(s, p, t, delim)
    ensures ReadToken(s, p, delim) == (t, p + |t|)
  {
    ReadRawFrom(s, p, t, delim, 0);
  }

  lemma {:induction false} ReadRawFrom(s: string, p: nat, t: string, delim: char, k: nat)
    requires Clean(t, delim) && k <= |t|
    requires AtFrom(s, p, t, k) && p + |t| < |s| && s[p + |t|] == delim
    ensures ReadToken(s, p + k, delim) == (t[k..], p + |t|)
    decreases |t| - k
  {
    if k < |t| {
      ReadRawFrom(s, p, t, delim, k + 1);
      assert t[k] in t;
      assert t[k..] == [t[k]] + t[k + 1..];
    } else {
      assert t[k..] == [];
    }
  }

  /** The converse: the scanner has fallen behind by a run of escapes and cannot catch up. */
  lemma {:induction false} LaggingReadFails(s: string, p: nat, t: string, delim: char, i: nat, j: nat)
    requires delim != ESCAPE
    requires Before(s, p, t, delim)
    requires j < i <= |t| && forall k :: j <= k < i ==> t[k] == ESCAPE
    ensures ReadToken(s, p + i, delim).0 != t[j..]
    decreases |t| - i
  {
    AtFromMeans(s, p, t, 0);
    assert t[j..][0] == ESCAPE && t[j..][1..] == t[j + 1..];
    if i + 1 < |t| && t[i] == ESCAPE && t[i + 1] == ESCAPE {
      LaggingReadFails(s, p, t, delim, i + 2, j + 1);
      assert ReadToken(s, p + i, delim).0[1..] == ReadToken(s, p + i + 2, delim).0;
    }
  }

  /** Raw text before a delimiter reads back as itself exactly when it is clean. */
  lemma RawReadIff(s: string, p: nat, t: string, delim: char)
    requires delim != ESCAPE
    requires Before(s, p, t, delim)
    ensures ReadToken(s, p, delim).0 == t <==> Clean(t, delim)
  {
    AtFromMeans(s, p, t, 0);
    RawReadIffFrom(s, p, t, delim, 0);
    assert t[0..] == t;
  }

  lemma {:induction false} RawReadIffFrom(s: string, p: nat, t: string, delim: char, k: nat)
    requires delim != ESCAPE && k <= |t|
    requires Before(s, p, t, delim)
    ensures ReadToken(s, p + k, delim).0 == t[k..] <==> Clean(t[k..], delim)
    decreases |t| - k
  {
    AtFromMeans(s, p, t, 0);
    if k < |t| {
      assert t[k..] == [t[k]] + t[k + 1..];
      if t[k] == ESCAPE {
        if k + 1 < |t| && t[k + 1] == ESCAPE {
          LaggingReadFails(s, p, t, delim, k + 2, k + 1);
          assert ReadToken(s, p + k, delim).0[1..] == ReadToken(s, p + k + 2, delim).0;
        }
      } else if t[k] != delim {
        RawReadIffFrom(s, p, t, delim, k + 1);
        assert ReadToken(s, p + k, delim).0[1..] == ReadToken(s, p + k + 1, delim).0;
      }
    }
  }

  // ----- Decimal numbers -----

  function DigitChar(d: nat): char
    requires d < 10
  {
    "0123456789"[d]
  }

  predicate IsDigit(c: char) {
    '0' <= c <= '9'
  }

  function DigitValue(c: char): nat
    requires IsDigit(c)
  {
    c as int - '0' as int
  }

  lemma DigitInverse(d: nat)
    requires d < 10
    ensures IsDigit(DigitChar(d)) && DigitValue(DigitChar(d)) == d
  {
  }

  /** What `snprintf("%lu")` prints. */
  function Dec(n: nat): (s: string)
    ensures |s| == NumDigits(n)
  {
    if n < 10 then [DigitChar(n)] else Dec(n / 10) + [DigitChar(n % 10)]
  }

  lemma {:induction false} DecIsDigits(n: nat)
    ensures forall c :: c in Dec(n) ==> IsDigit(c)
  {
    DigitInverse(n % 10);
    if n >= 10 { DecIsDigits(n / 10); }
  }

  function NumDigits(n: nat): (d: nat)
    ensures d >= 1
  {
    if n < 10 then 1 else 1 + NumDigits(n / 10)
  }

  function Pow10(k: nat): (r: nat)
    ensures r >= 1
  {
    if k == 0 then 1 else 10 * Pow10(k - 1)
  }

  lemma {:induction false} Pow10Mono(a: nat, b: nat)
    requires a <= b
    ensures Pow10(a) <= Pow10(b)
    decreases b
  {
    if a < b { Pow10Mono(a, b - 1); }
  }

  /** A number has `k` digits exactly when it lies between the two powers of ten. */
  lemma {:induction false} NumDigitsBounds(n: nat)
    ensures n < Pow10(NumDigits(n))
    ensures n >= 10 ==> Pow10(NumDigits(n) - 1) <= n
    ensures n < 10 <==> NumDigits(n) == 1
  {
    if n >= 10 {
      NumDigitsBounds(n / 10);
      if n / 10 < 10 {
        assert NumDigits(n) == 2;
        assert Pow10(1) == 10;
      } else {
        assert Pow10(NumDigits(n) - 1) == 10 * Pow10(NumDigits(n / 10) - 1);
      }
    } else {
      assert Pow10(1) == 10;
    }
  }

  lemma NumDigitsAtMost(n: nat, k: nat)
    requires k >= 1
    ensures NumDigits(n) <= k <==> n < Pow10(k)
  {
    NumDigitsBounds(n);
    var d := NumDigits(n);
    if d <= k {
      Pow10Mono(d, k);
    } else {
      Pow10Mono(k, d - 1);
    }
  }

  lemma NumDigitsMono(a: nat, b: nat)
    requires a <= b
    ensures NumDigits(a) <= NumDigits(b)
  {
    NumDigitsAtMost(b, NumDigits(b));
    NumDigitsAtMost(a, NumDigits(b));
  }

  /** The C++ conversion of a size to a 32 bit int. */
  function ToInt32(n: int): (r: int)
    ensures -0x8000_0000 <= r < 0x8000_0000
    ensures (r - n) % 0x1_0000_0000 == 0
  {
    var m := n % 0x1_0000_0000;
    if m < 0x8000_0000 then m else m - 0x1_0000_0000
  }

  /** `utils::to_str(int)`. */
  function ToStr(n: int): string {
    var i := ToInt32(n);
    if i < 0 then "-" + Dec(-i) else Dec(i)
  }

  lemma ToStrAtMost11(n: int)
    ensures 1 <= |ToStr(n)| <= 11
    ensures forall c :: c in ToStr(n) ==> !IsSpecial(c)
  {
    var i := ToInt32(n);
    assert Pow10(10) == 10_000_000_000 by {
      assert Pow10(5) == 100_000;
      assert Pow10(10) == 100_000 * Pow10(5);
    }
    DecIsDigits(if i < 0 then -i else i);
    if i < 0 {
      NumDigitsAtMost(-i, 10);
    } else {
      NumDigitsAtMost(i, 10);
    }
  }
}
