/**
 * HTML entity decoding as a chain of separate replacement passes, against
 * writers that may choose a raw character, a named entity or a numeric
 * reference for every character.
 */
module HtmlEntities {
  import opened CodeUnits

  datatype Entity = Quot | Apos | Lt | Gt | Amp

  const QUOT_NAME: Text := Ascii("&quot;")
  const APOS_NAME: Text := Ascii("&apos;")
  const LT_NAME: Text := Ascii("&lt;")
  const GT_NAME: Text := Ascii("&gt;")
  const AMP_NAME: Text := Ascii("&amp;")
  const APOS_NUMBER: Text := Ascii("&#039;")

  function NameOf(e: Entity): (t: Text) {
    match e
    case Quot => QUOT_NAME
    case Apos => APOS_NAME
    case Lt => LT_NAME
    case Gt => GT_NAME
    case Amp => AMP_NAME
  }

  function CharOf(e: Entity): (u: Unit) {
    match e
    case Quot => QUOTE
    case Apos => 0x27
    case Lt => 0x3C
    case Gt => 0x3E
    case Amp => AMPERSAND
  }

  // ----- the decoder

  /** String.fromCodePoint, or nothing outside the code space. */
  function FromCodePoint(code: nat): (t: Text) {
    if code > 0x10FFFF then []
    else if code < 0x1_0000 then [code]
    else [0xD800 + (code - 0x1_0000) / 0x400, 0xDC00 + (code - 0x1_0000) % 0x400]
  }

  predicate IsBaseDigit(base: nat, u: Unit) {
    if base == 10 then IsDigit(u) else IsHexDigit(u)
  }

  function DigitRun(base: nat, t: Text): (n: nat)
    ensures n <= |t|
  {
    if t == [] || !IsBaseDigit(base, t[0]) then 0 else 1 + DigitRun(base, t[1..])
  }

  function NumberOf(base: nat, digits: Text): (n: nat)
    requires forall u :: u in digits ==> IsHexDigit(u)
  {
    if digits == [] then 0
    else NumberOf(base, digits[..|digits| - 1]) * base + DigitValue(digits[|digits| - 1])
  }

  /** The opening of a numeric reference: `&#` in decimal, `&#x` or `&#X` in hexadecimal. */
  predicate OpensNumber(base: nat, t: Text) {
    && |t| >= 2 && t[0] == AMPERSAND && t[1] == HASH
    && (base != 10 ==> |t| >= 3 && (t[2] == 0x78 || t[2] == 0x58))
  }

  function OpeningLength(base: nat): (n: nat) {
    if base == 10 then 2 else 3
  }

  lemma {:induction false} DigitRunIsDigits(base: nat, t: Text)
    ensures forall u :: u in t[..DigitRun(base, t)] ==> IsHexDigit(u)
  {
    if t != [] && IsBaseDigit(base, t[0]) {
      DigitRunIsDigits(base, t[1..]);
      assert t[..DigitRun(base, t)] == [t[0]] + t[1..][..DigitRun(base, t[1..])];
    }
  }

  function DigitsAt(base: nat, t: Text): (digits: Text)
    requires OpensNumber(base, t)
    ensures |digits| <= |t| - OpeningLength(base) && digits == t[OpeningLength(base)..][..|digits|]
    ensures forall u :: u in digits ==> IsHexDigit(u)
  {
    var rest := t[OpeningLength(base)..];
    DigitRunIsDigits(base, rest);
    rest[..DigitRun(base, rest)]
  }

  /** The text begins with a complete numeric reference of the base. */
  predicate BeginsReference(base: nat, t: Text) {
    && OpensNumber(base, t)
    && var n := |DigitsAt(base, t)|;
       n > 0 && OpeningLength(base) + n < |t| && t[OpeningLength(base) + n] == SEMICOLON
  }

  function ReferenceLength(base: nat, t: Text): (n: nat)
    requires BeginsReference(base, t)
    ensures 4 <= n <= |t|
  {
    OpeningLength(base) + |DigitsAt(base, t)| + 1
  }

  function ReferenceValue(base: nat, t: Text): (value: Text)
    requires BeginsReference(base, t)
  {
    FromCodePoint(NumberOf(base, DigitsAt(base, t)))
  }

  /** A numeric pass: every `&#digits;` becomes its character, scanning left to right. */
  function ReplaceNumbers(base: nat, t: Text): (r: Text)
    decreases |t|
  {
    if t == [] then []
    else if BeginsReference(base, t) then ReferenceValue(base, t) + ReplaceNumbers(base, t[ReferenceLength(base, t)..])
    else [t[0]] + ReplaceNumbers(base, t[1..])
  }

  /** A literal pass: every occurrence of the pattern is replaced, scanning left to right. */
  function ReplaceAll(t: Text, pattern: Text, by': Unit): (r: Text)
    requires pattern != []
    decreases |t|
  {
    if t == [] then []
    else if |pattern| <= |t| && t[..|pattern|] == pattern then [by'] + ReplaceAll(t[|pattern|..], pattern, by')
    else [t[0]] + ReplaceAll(t[1..], pattern, by')
  }

  function Unname(t: Text, e: Entity): (r: Text) {
    ReplaceAll(t, NameOf(e), CharOf(e))
  }

  /** decodeHtmlEntities: two numeric passes and six literal ones, the ampersand last. */
  function DecodeHtmlEntities(value: Text): (r: Text) {
    var numbers := ReplaceNumbers(16, ReplaceNumbers(10, value));
    var quoted := ReplaceAll(Unname(numbers, Quot), APOS_NUMBER, 0x27);
    Unname(Unname(Unname(Unname(quoted, Apos), Lt), Gt), Amp)
  }

  // ----- written text

  /** How a writer may put one character: raw, by name, or as a decimal or hexadecimal reference. */
  datatype Token = Raw(u: Unit) | Named(e: Entity) | Number(base: nat, x: Unit, digits: Text)

  const AMP_RAW := Raw(AMPERSAND)

  predicate ValidToken(p: Token) {
    match p
    case Raw(_) => true
    case Named(_) => true
    case Number(base, x, digits) =>
      && (base == 10 || (base == 16 && (x == 0x78 || x == 0x58)))
      && digits != [] && (forall u :: u in digits ==> IsHexDigit(u) && IsBaseDigit(base, u))
  }

  predicate ValidTokens(ps: seq<Token>) {
    forall p :: p in ps ==> ValidToken(p)
  }

  function WriteToken(p: Token): (t: Text) {
    match p
    case Raw(u) => [u]
    case Named(e) => NameOf(e)
    case Number(base, x, digits) => (if base == 10 then [AMPERSAND, HASH] else [AMPERSAND, HASH, x]) + digits + [SEMICOLON]
  }

  function Write(ps: seq<Token>): (t: Text) {
    if ps == [] then [] else WriteToken(ps[0]) + Write(ps[1..])
  }

  function TokenValue(p: Token): (t: Text)
    requires ValidToken(p)
  {
    match p
    case Raw(u) => [u]
    case Named(e) => [CharOf(e)]
    case Number(base, _, digits) => FromCodePoint(NumberOf(base, digits))
  }

  /** What the tokens stand for, read in a single pass. */
  function ValueOf(ps: seq<Token>): (t: Text)
    requires ValidTokens(ps)
  {
    if ps == [] then [] else TokenValue(ps[0]) + ValueOf(ps[1..])
  }

  function Raws(t: Text): (ps: seq<Token>) {
    seq(|t|, i requires 0 <= i < |t| => Raw(t[i]))
  }

  lemma {:induction false} WriteConcat(a: seq<Token>, b: seq<Token>)
    ensures Write(a + b) == Write(a) + Write(b)
  {
    hide *;
    if a == [] {
      assert a + b == b;
      WriteNothing();
      assert [] + Write(b) == Write(b);
    } else {
      WriteConcat(a[1..], b);
      WriteStep(a);
      WriteStep(a + b);
      assert (a + b)[1..] == a[1..] + b;
      assert WriteToken(a[0]) + (Write(a[1..]) + Write(b)) == WriteToken(a[0]) + Write(a[1..]) + Write(b);
    }
  }

  lemma WriteNothing()
    ensures Write([]) == []
  {
  }

  lemma {:induction false} WriteRaws(t: Text)
    ensures Write(Raws(t)) == t
  {
    if t != [] {
      WriteRaws(t[1..]);
      assert Raws(t)[1..] == Raws(t[1..]);
    }
  }

  lemma {:induction false} ValueOfRaws(t: Text, ps: seq<Token>)
    requires ValidTokens(ps)
    ensures ValidTokens(Raws(t) + ps) && ValueOf(Raws(t) + ps) == t + ValueOf(ps)
  {
    hide ValueOf;
    if t == [] {
      assert Raws(t) + ps == ps;
      assert t + ValueOf(ps) == ValueOf(ps);
    } else {
      ValueOfRaws(t[1..], ps);
      ValueCons(Raw(t[0]), Raws(t[1..]) + ps);
      assert Raws(t) + ps == [Raw(t[0])] + (Raws(t[1..]) + ps);
      assert [t[0]] + (t[1..] + ValueOf(ps)) == t + ValueOf(ps);
    }
  }

  lemma ValueCons(p: Token, ps: seq<Token>)
    requires ValidToken(p) && ValidTokens(ps)
    ensures ValidTokens([p] + ps) && ValueOf([p] + ps) == TokenValue(p) + ValueOf(ps)
  {
    hide TokenValue, ValidToken;
    assert ([p] + ps)[1..] == ps;
  }

  lemma {:induction false} RawPrefix(ps: seq<Token>, w: Text, t: Text)
    requires Write(ps) == w + t && AMPERSAND !in w
    ensures |w| <= |ps| && ps == Raws(w) + ps[|w|..] && Write(ps[|w|..]) == t
    decreases |ps|, 1
  {
    if w == [] {
      assert ps == Raws(w) + ps && w + t == t;
    } else {
      assert w[0] in w;
      assert (w + t)[0] == w[0] == WriteToken(ps[0])[0];
      BeginsWithAmpersand(ps[0]);
      SpelledFrom(ps, w, t);
    }
  }

  /** Written text that begins with a raw token and shows no ampersand after it comes from raw tokens only. */
  lemma {:induction false} SpelledFrom(ps: seq<Token>, w: Text, t: Text)
    requires ps != [] && ps[0].Raw? && w != [] && Write(ps) == w + t && AMPERSAND !in w[1..]
    ensures |w| <= |ps| && ps == Raws(w) + ps[|w|..] && Write(ps[|w|..]) == t
    decreases |ps|, 0
  {
    hide *;
    var rest := ps[1..];
    WriteStep(ps);
    assert Write(ps)[0] == w[0] && Write(ps)[1..] == Write(rest) && (w + t)[1..] == w[1..] + t;
    RawPrefix(rest, w[1..], t);
    assert ps[|w|..] == rest[|w| - 1..];
    RawsStep(w);
    assert ps == [ps[0]] + rest;
    assert [ps[0]] + (Raws(w[1..]) + ps[|w|..]) == [ps[0]] + Raws(w[1..]) + ps[|w|..];
  }

  lemma WriteStep(ps: seq<Token>)
    requires ps != []
    ensures Write(ps) == WriteToken(ps[0]) + Write(ps[1..])
    ensures ps[0].Raw? ==> WriteToken(ps[0]) == [ps[0].u]
  {
  }

  lemma RawsStep(w: Text)
    requires w != []
    ensures Raws(w) == [Raw(w[0])] + Raws(w[1..])
  {
  }

  lemma BeginsWithAmpersand(p: Token)
    ensures !p.Raw? ==> |WriteToken(p)| >= 3 && WriteToken(p)[0] == AMPERSAND
  {
  }

  // ----- references and names that raw tokens happen to spell

  /** A loose ampersand from which raw tokens spell a numeric reference. */
  predicate SpellsReference(base: nat, ps: seq<Token>) {
    ps != [] && ps[0] == AMP_RAW && BeginsReference(base, Write(ps))
  }

  predicate SpellsSomeReference(base: nat, ps: seq<Token>) {
    exists i :: 0 <= i < |ps| && SpellsReference(base, ps[i..])
  }

  /** Raw tokens that spell a literal pattern. */
  predicate Spells(pattern: Text, ps: seq<Token>) {
    |pattern| <= |ps| && ps[..|pattern|] == Raws(pattern)
  }

  predicate SpellsSome(pattern: Text, ps: seq<Token>) {
    exists i :: 0 <= i < |ps| && Spells(pattern, ps[i..])
  }

  lemma {:induction false} SpelledLater(base: nat, ps: seq<Token>)
    requires ps != [] && !SpellsReference(base, ps)
    ensures SpellsSomeReference(base, ps) <==> SpellsSomeReference(base, ps[1..])
  {
    hide SpellsReference;
    assert ps[0..] == ps;
    if SpellsSomeReference(base, ps) {
      var i :| 0 <= i < |ps| && SpellsReference(base, ps[i..]);
      assert ps[i..] == ps[1..][i - 1..];
    }
    if SpellsSomeReference(base, ps[1..]) {
      var i :| 0 <= i < |ps[1..]| && SpellsReference(base, ps[1..][i..]);
      assert ps[i + 1..] == ps[1..][i..];
    }
  }

  lemma PatternLater(pattern: Text, ps: seq<Token>)
    requires ps != [] && !Spells(pattern, ps)
    ensures SpellsSome(pattern, ps) <==> SpellsSome(pattern, ps[1..])
  {
    hide Spells;
    assert ps[0..] == ps;
    if SpellsSome(pattern, ps) {
      var i :| 0 <= i < |ps| && Spells(pattern, ps[i..]);
      assert ps[i..] == ps[1..][i - 1..];
    }
    if SpellsSome(pattern, ps[1..]) {
      var i :| 0 <= i < |ps[1..]| && Spells(pattern, ps[1..][i..]);
      assert ps[i + 1..] == ps[1..][i..];
    }
  }

  // ----- one numeric pass

  /** The numeric references of one base, resolved. */
  function Resolve(base: nat, ps: seq<Token>): (r: seq<Token>)
    requires ValidTokens(ps)
    ensures ValidTokens(r)
  {
    if ps == [] then []
    else
      assert ValidToken(ps[0]) && ValidTokens(ps[1..]);
      (if ps[0].Number? && ps[0].base == base then Raws(TokenValue(ps[0])) else [ps[0]]) + Resolve(base, ps[1..])
  }

  /** Text without ampersands passes through a numeric pass. */
  lemma {:induction false} NumbersPass(base: nat, w: Text, rest: Text)
    requires AMPERSAND !in w
    ensures ReplaceNumbers(base, w + rest) == w + ReplaceNumbers(base, rest)
  {
    if w == [] {
      assert w + rest == rest;
    } else {
      assert (w + rest)[1..] == w[1..] + rest;
      assert w[0] in w && AMPERSAND !in w[1..];
      NumbersPass(base, w[1..], rest);
    }
  }

  lemma {:induction false} DigitRunStops(base: nat, digits: Text, rest: Text)
    requires forall u :: u in digits ==> IsBaseDigit(base, u)
    requires rest == [] || !IsBaseDigit(base, rest[0])
    ensures DigitRun(base, digits + rest) == |digits|
  {
    if digits == [] {
      assert digits + rest == rest;
    } else {
      assert digits[0] in digits && forall u :: u in digits[1..] ==> u in digits;
      assert (digits + rest)[1..] == digits[1..] + rest;
      DigitRunStops(base, digits[1..], rest);
    }
  }

  lemma ReferenceParts(p: Token, rest: Text)
    requires p.Number? && ValidToken(p)
    ensures var t := WriteToken(p) + rest;
            && BeginsReference(p.base, t) && ReferenceLength(p.base, t) == |WriteToken(p)|
            && ReferenceValue(p.base, t) == TokenValue(p)
  {
    var start, t, n := OpeningLength(p.base), WriteToken(p) + rest, |p.digits|;
    DigitsOf(p, rest);
    hide NumberOf, FromCodePoint, DigitsAt;
    assert |WriteToken(p)| == start + n + 1 && t[start + n] == SEMICOLON;
  }

  lemma DigitsOf(p: Token, rest: Text)
    requires p.Number? && ValidToken(p)
    ensures var t := WriteToken(p) + rest; OpensNumber(p.base, t) && DigitsAt(p.base, t) == p.digits
  {
    var start, t := OpeningLength(p.base), WriteToken(p) + rest;
    assert t[start..] == p.digits + ([SEMICOLON] + rest);
    assert !IsBaseDigit(p.base, SEMICOLON) && ([SEMICOLON] + rest)[0] == SEMICOLON;
    hide IsHexDigit, IsDigit, DigitRun, NumberOf;
    DigitRunStops(p.base, p.digits, [SEMICOLON] + rest);
    assert t[start..][..|p.digits|] == p.digits;
  }

  /** A reference in the base of the pass is resolved. */
  lemma NumberIsResolved(p: Token, rest: Text)
    requires p.Number? && ValidToken(p)
    ensures ReplaceNumbers(p.base, WriteToken(p) + rest) == TokenValue(p) + ReplaceNumbers(p.base, rest)
  {
    ReferenceParts(p, rest);
    hide BeginsReference, ReferenceLength, ReferenceValue, WriteToken, TokenValue;
    var t := WriteToken(p) + rest;
    assert t[|WriteToken(p)|..] == rest;
  }

  /** Anything else written with an ampersand is left alone: the character after it does not continue a reference of this base. */
  lemma AmpersandStays(base: nat, w: Text, rest: Text)
    requires base == 10 || base == 16
    requires |w| >= 3 && w[0] == AMPERSAND && AMPERSAND !in w[1..]
    requires w[1] == HASH ==> if base == 10 then !IsDigit(w[2]) else w[2] != 0x78 && w[2] != 0x58
    ensures ReplaceNumbers(base, w + rest) == w + ReplaceNumbers(base, rest)
  {
    var t := w + rest;
    NothingOpens(base, w, rest);
    hide *;
    NumbersPass(base, w[1..], rest);
    assert t[1..] == w[1..] + rest;
    CharacterStays(base, t);
    assert [w[0]] + (w[1..] + ReplaceNumbers(base, rest)) == w + ReplaceNumbers(base, rest);
  }

  lemma CharacterStays(base: nat, t: Text)
    requires t != [] && !BeginsReference(base, t)
    ensures ReplaceNumbers(base, t) == [t[0]] + ReplaceNumbers(base, t[1..])
  {
  }

  lemma NothingOpens(base: nat, w: Text, rest: Text)
    requires base == 10 || base == 16
    requires |w| >= 3 && (w[1] == HASH ==> if base == 10 then !IsDigit(w[2]) else w[2] != 0x78 && w[2] != 0x58)
    ensures !BeginsReference(base, w + rest)
  {
    var t := w + rest;
    assert t[1] == w[1] && t[2] == w[2];
    if OpensNumber(base, t) {
      assert base == 10;
      assert t[2..][0] == w[2];
      assert DigitRun(base, t[2..]) == 0;
    }
  }

  lemma NamesAre(e: Entity)
    ensures var w := NameOf(e);
            && |w| >= 4 && w[0] == AMPERSAND && AMPERSAND !in w[1..] && w[1] != HASH
  {
    var w := NameOf(e);
    assert |w| >= 4;
    forall u | u in w[1..] ensures u != AMPERSAND {
      var i :| 0 <= i < |w[1..]| && w[1..][i] == u;
      assert w[i + 1] == u;
    }
  }

  lemma NumbersAre(p: Token)
    requires p.Number? && ValidToken(p)
    ensures var w := WriteToken(p);
            && |w| >= 4 && w[0] == AMPERSAND && AMPERSAND !in w[1..] && w[1] == HASH
            && (p.base == 10 ==> IsDigit(w[2])) && (p.base == 16 ==> (w[2] == 0x78 || w[2] == 0x58) && !IsDigit(w[2]))
  {
    var w := WriteToken(p);
    var opening: Text := if p.base == 10 then [HASH] else [HASH, p.x];
    assert p.digits[0] in p.digits;
    assert w[1..] == opening + p.digits + [SEMICOLON];
    assert forall u :: u in p.digits ==> u != AMPERSAND;
  }

  /** The numeric tokens that are left are old ones, of another base. */
  predicate LeavesOthers(base: nat, qs: seq<Token>, ps: seq<Token>) {
    forall p :: p in qs && p.Number? ==> p in ps && p.base != base
  }

  lemma LeavesMore(base: nat, head: seq<Token>, later: seq<Token>, ps: seq<Token>, n: nat)
    requires n <= |ps| && LeavesOthers(base, later, ps[n..])
    requires forall p :: p in head ==> p.Raw? || (p in ps && !(p.Number? && p.base == base))
    ensures LeavesOthers(base, head + later, ps)
  {
    assert forall p :: p in ps[n..] ==> p in ps;
  }

  lemma RawsAreRaw(t: Text)
    ensures forall p :: p in Raws(t) ==> p.Raw?
  {
  }

  /** A spelled reference takes up raw tokens, and more of them than it has value. */
  lemma SpelledIsRaw(base: nat, ps: seq<Token>)
    requires SpellsReference(base, ps) && ValidTokens(ps)
    ensures var t := Write(ps);
            var n := ReferenceLength(base, t);
            && 4 <= n <= |ps| && ps == Raws(t[..n]) + ps[n..] && Write(ps[n..]) == t[n..]
            && |ReferenceValue(base, t)| <= 2
  {
    hide *;
    var t := Write(ps);
    SpellingIs(base, ps);
    var n := ReferenceLength(base, t);
    NoAmpersandInside(base, t);
    ValueIsShort(base, t);
    assert t == t[..n] + t[n..] && t[..n][1..] == t[1..n];
    SpelledFrom(ps, t[..n], t[n..]);
  }

  lemma SpellingIs(base: nat, ps: seq<Token>)
    requires SpellsReference(base, ps)
    ensures ps != [] && ps[0].Raw? && BeginsReference(base, Write(ps))
  {
  }

  lemma ValueIsShort(base: nat, t: Text)
    requires BeginsReference(base, t)
    ensures |ReferenceValue(base, t)| <= 2
  {
    hide NumberOf;
  }

  lemma NoAmpersandInside(base: nat, t: Text)
    requires BeginsReference(base, t)
    ensures AMPERSAND !in t[1..ReferenceLength(base, t)]
  {
    var n, start := ReferenceLength(base, t), OpeningLength(base);
    var digits := DigitsAt(base, t);
    forall u | u in t[1..n] ensures u != AMPERSAND {
      var i :| 1 <= i < n && t[i] == u;
      if start <= i < n - 1 {
        assert digits[i - start] == t[i];
        assert digits[i - start] in digits;
      }
    }
  }

  /**
   * One numeric pass over any written text, token by token: it resolves the
   * references of its base, and those that raw tokens happen to spell. Only the
   * latter change what the text stands for, and they make it shorter.
   */
  lemma {:induction false} NumericPass(base: nat, ps: seq<Token>) returns (qs: seq<Token>)
    requires base == 10 || base == 16
    requires ValidTokens(ps)
    ensures ValidTokens(qs) && ReplaceNumbers(base, Write(ps)) == Write(qs)
    ensures LeavesOthers(base, qs, ps)
    ensures if SpellsSomeReference(base, ps) then |ValueOf(qs)| < |ValueOf(ps)|
            else qs == Resolve(base, ps) && ValueOf(qs) == ValueOf(ps)
    decreases |ps|, 1
  {
    if ps == [] {
      qs := [];
    } else if SpellsReference(base, ps) {
      hide *;
      qs := SpelledPass(base, ps);
    } else {
      hide *;
      var p := ps[0];
      RestIsValid(ps, 0);
      RestIsValid(ps, 1);
      SpelledLater(base, ps);
      var later := NumericPass(base, ps[1..]);
      ResolveStep(base, ps);
      assert [p] + ps[1..] == ps;
      PrependToken(p, ps[1..]);
      if p.Number? && p.base == base {
        NumberIsResolved(p, Write(ps[1..]));
        PrependRaws(TokenValue(p), later);
        qs := Raws(TokenValue(p)) + later;
        RawsAreRaw(TokenValue(p));
        LeavesMore(base, Raws(TokenValue(p)), later, ps, 1);
      } else {
        HeadStays(base, ps);
        PrependToken(p, later);
        qs := [p] + later;
        LeavesMore(base, [p], later, ps, 1);
      }
    }
  }

  lemma ResolveStep(base: nat, ps: seq<Token>)
    requires ps != [] && ValidTokens(ps) && ValidTokens(ps[1..]) && ValidToken(ps[0])
    ensures Resolve(base, ps)
         == (if ps[0].Number? && ps[0].base == base then Raws(TokenValue(ps[0])) else [ps[0]]) + Resolve(base, ps[1..])
  {
  }

  lemma PrependRaws(t: Text, ps: seq<Token>)
    requires ValidTokens(ps)
    ensures var qs := Raws(t) + ps;
            && ValidTokens(qs) && Write(qs) == t + Write(ps) && ValueOf(qs) == t + ValueOf(ps)
            && (forall p :: p in qs ==> p in ps || p.Raw?)
  {
    ValueOfRaws(t, ps);
    WriteConcat(Raws(t), ps);
    WriteRaws(t);
  }

  lemma PrependToken(p: Token, ps: seq<Token>)
    requires ValidToken(p) && ValidTokens(ps)
    ensures var qs := [p] + ps;
            && ValidTokens(qs) && Write(qs) == WriteToken(p) + Write(ps) && ValueOf(qs) == TokenValue(p) + ValueOf(ps)
            && (p.Raw? ==> Write(qs) == [p.u] + Write(ps) && ValueOf(qs) == [p.u] + ValueOf(ps))
            && (forall q :: q in qs ==> q == p || q in ps)
  {
    ValueCons(p, ps);
    assert ([p] + ps)[1..] == ps;
  }

  lemma HeadStays(base: nat, ps: seq<Token>)
    requires base == 10 || base == 16
    requires ps != [] && ValidToken(ps[0]) && !SpellsReference(base, ps) && !(ps[0].Number? && ps[0].base == base)
    ensures ReplaceNumbers(base, Write(ps)) == WriteToken(ps[0]) + ReplaceNumbers(base, Write(ps[1..]))
  {
    var rest := Write(ps[1..]);
    match ps[0] {
      case Raw(u) =>
        if u == AMPERSAND {
          assert Write(ps)[1..] == rest;
        } else {
          NumbersPass(base, [u], rest);
        }
      case Named(e) =>
        NamesAre(e);
        AmpersandStays(base, NameOf(e), rest);
      case Number(b, x, digits) =>
        NumbersAre(ps[0]);
        AmpersandStays(base, WriteToken(ps[0]), rest);
    }
  }

  lemma {:induction false} SpelledPass(base: nat, ps: seq<Token>) returns (qs: seq<Token>)
    requires base == 10 || base == 16
    requires ValidTokens(ps) && SpellsReference(base, ps)
    ensures ValidTokens(qs) && ReplaceNumbers(base, Write(ps)) == Write(qs)
    ensures LeavesOthers(base, qs, ps)
    ensures SpellsSomeReference(base, ps) && |ValueOf(qs)| < |ValueOf(ps)|
    decreases |ps|, 0
  {
    hide *;
    var t := Write(ps);
    BeginsSpelled(base, ps);
    var n, value := ReferenceLength(base, t), ReferenceValue(base, t);
    SpelledIsRaw(base, ps);
    RestIsValid(ps, n);
    var later := NumericPass(base, ps[n..]);
    PrependRaws(value, later);
    PrependRaws(t[..n], ps[n..]);
    qs := Raws(value) + later;
    RawsAreRaw(value);
    LeavesMore(base, Raws(value), later, ps, n);
  }

  lemma BeginsSpelled(base: nat, ps: seq<Token>)
    requires SpellsReference(base, ps)
    ensures SpellsSomeReference(base, ps)
    ensures ps != [] && BeginsReference(base, Write(ps))
    ensures var t := Write(ps);
            ReplaceNumbers(base, t) == ReferenceValue(base, t) + ReplaceNumbers(base, t[ReferenceLength(base, t)..])
  {
    assert ps[0..] == ps;
  }

  lemma RestIsValid(ps: seq<Token>, n: nat)
    requires ValidTokens(ps) && n <= |ps|
    ensures ValidTokens(ps[n..]) && (NoNumbers(ps) ==> NoNumbers(ps[n..]))
    ensures n < |ps| ==> ValidToken(ps[n])
  {
    hide ValidToken;
    assert forall p :: p in ps[n..] ==> p in ps;
    assert n < |ps| ==> ps[n] in ps;
  }

  // ----- one literal pass

  predicate IsPattern(w: Text) {
    && |w| >= 4 && w[0] == AMPERSAND && AMPERSAND !in w[1..]
    && forall e: Entity :: NameOf(e) != w ==> NameOf(e)[1] != w[1] || NameOf(e)[2] != w[2]
  }

  predicate NoNumbers(ps: seq<Token>) {
    forall p :: p in ps ==> !p.Number?
  }

  /** The tokens named by the pattern, resolved. */
  function ResolveName(w: Text, c: Unit, ps: seq<Token>): (r: seq<Token>) {
    seq(|ps|, i requires 0 <= i < |ps| => if ps[i].Named? && NameOf(ps[i].e) == w then Raw(c) else ps[i])
  }

  lemma {:induction false} LiteralPasses(w: Text, rest: Text, pattern: Text, by': Unit)
    requires pattern != [] && pattern[0] == AMPERSAND && AMPERSAND !in w
    ensures ReplaceAll(w + rest, pattern, by') == w + ReplaceAll(rest, pattern, by')
  {
    if w == [] {
      assert w + rest == rest;
    } else {
      var t := w + rest;
      assert t[1..] == w[1..] + rest;
      assert w[0] in w && AMPERSAND !in w[1..];
      LiteralPasses(w[1..], rest, pattern, by');
      if |pattern| <= |t| {
        assert t[..|pattern|][0] == w[0];
      }
    }
  }

  /** A pattern that differs from w within its first three characters does not match at w. */
  lemma OtherEntityStays(w: Text, rest: Text, pattern: Text, by': Unit)
    requires |w| >= 3 && w[0] == AMPERSAND && AMPERSAND !in w[1..]
    requires |pattern| >= 3 && pattern[0] == AMPERSAND
    requires pattern[1] != w[1] || pattern[2] != w[2]
    ensures ReplaceAll(w + rest, pattern, by') == w + ReplaceAll(rest, pattern, by')
  {
    var t := w + rest;
    assert t[1..] == w[1..] + rest;
    LiteralPasses(w[1..], rest, pattern, by');
    if |pattern| <= |t| {
      assert t[..|pattern|][1] == w[1] && t[..|pattern|][2] == w[2];
    }
  }

  lemma PatternIsReplaced(w: Text, rest: Text, c: Unit)
    requires w != []
    ensures ReplaceAll(w + rest, w, c) == [c] + ReplaceAll(rest, w, c)
  {
    var t := w + rest;
    assert t[..|w|] == w && t[|w|..] == rest;
  }

  /** The text begins with the pattern exactly when a token names it or raw tokens spell it. */
  lemma MatchIsSpelled(w: Text, ps: seq<Token>)
    requires w != [] && AMPERSAND !in w[1..] && ps != [] && ps[0].Raw?
    ensures |w| <= |Write(ps)| && Write(ps)[..|w|] == w ==> Spells(w, ps)
  {
    var t := Write(ps);
    if |w| <= |t| && t[..|w|] == w {
      hide Write, IsPattern;
      assert t == w + t[|w|..];
      SpelledFrom(ps, w, t[|w|..]);
      assert ps[..|w|] == Raws(w);
    }
  }

  lemma SpelledText(w: Text, ps: seq<Token>)
    requires IsPattern(w) && Spells(w, ps)
    ensures |w| >= 4 && |w| <= |ps| && SpellsSome(w, ps)
    ensures ps == Raws(w) + ps[|w|..] && Write(ps) == w + Write(ps[|w|..])
  {
    assert ps[0..] == ps;
    assert ps == Raws(w) + ps[|w|..];
    WriteConcat(Raws(w), ps[|w|..]);
    WriteRaws(w);
  }

  /**
   * One literal pass over text without numeric tokens: it resolves the tokens of
   * its name, and every occurrence that raw tokens happen to spell.
   */
  lemma {:induction false} LiteralPass(w: Text, c: Unit, ps: seq<Token>) returns (qs: seq<Token>)
    requires IsPattern(w) && forall e: Entity :: NameOf(e) == w ==> CharOf(e) == c
    requires ValidTokens(ps) && NoNumbers(ps)
    ensures ValidTokens(qs) && NoNumbers(qs) && ReplaceAll(Write(ps), w, c) == Write(qs)
    ensures forall p :: p in qs && p.Named? ==> p in ps && NameOf(p.e) != w
    ensures if SpellsSome(w, ps) then |ValueOf(qs)| < |ValueOf(ps)|
            else qs == ResolveName(w, c, ps) && ValueOf(qs) == ValueOf(ps)
    decreases |ps|, 1
  {
    if ps == [] {
      qs := [];
    } else if Spells(w, ps) {
      qs := SpelledLiteral(w, c, ps);
    } else {
      hide *;
      var p := ps[0];
      RestIsValid(ps, 0);
      RestIsValid(ps, 1);
      PatternLater(w, ps);
      var later := LiteralPass(w, c, ps[1..]);
      TokenStays(w, c, ps);
      ResolveNameStep(w, c, ps);
      assert [p] + ps[1..] == ps;
      PrependToken(p, ps[1..]);
      qs := [if p.Named? && NameOf(p.e) == w then Raw(c) else p] + later;
      RawIsValid(c);
      PrependToken(qs[0], later);
      KeepsValue(w, c, p);
      StaysNumberless([qs[0]], later);
    }
  }

  lemma KeepsValue(w: Text, c: Unit, p: Token)
    requires ValidToken(p) && forall e: Entity :: NameOf(e) == w ==> CharOf(e) == c
    ensures p.Named? && NameOf(p.e) == w ==> TokenValue(p) == [c]
  {
  }

  lemma ResolveNameStep(w: Text, c: Unit, ps: seq<Token>)
    requires ps != []
    ensures ResolveName(w, c, ps)
         == [if ps[0].Named? && NameOf(ps[0].e) == w then Raw(c) else ps[0]] + ResolveName(w, c, ps[1..])
  {
    hide NameOf;
  }

  lemma {:induction false} SpelledLiteral(w: Text, c: Unit, ps: seq<Token>) returns (qs: seq<Token>)
    requires IsPattern(w) && forall e: Entity :: NameOf(e) == w ==> CharOf(e) == c
    requires ValidTokens(ps) && NoNumbers(ps) && Spells(w, ps)
    ensures ValidTokens(qs) && NoNumbers(qs) && ReplaceAll(Write(ps), w, c) == Write(qs)
    ensures forall p :: p in qs && p.Named? ==> p in ps && NameOf(p.e) != w
    ensures SpellsSome(w, ps) && |ValueOf(qs)| < |ValueOf(ps)|
    decreases |ps|, 0
  {
    hide *;
    SpelledText(w, ps);
    var rest := ps[|w|..];
    RestIsValid(ps, |w|);
    var later := LiteralPass(w, c, rest);
    PatternIsReplaced(w, Write(rest), c);
    PrependRaws(w, rest);
    PrependToken(Raw(c), later);
    RawIsValid(c);
    StaysNumberless([Raw(c)], later);
    qs := [Raw(c)] + later;
  }

  lemma RawIsValid(c: Unit)
    ensures ValidToken(Raw(c)) && NoNumbers([Raw(c)])
  {
  }

  lemma StaysNumberless(a: seq<Token>, b: seq<Token>)
    requires NoNumbers(a) && NoNumbers(b)
    ensures NoNumbers(a + b)
  {
  }

  lemma TokenStays(w: Text, c: Unit, ps: seq<Token>)
    requires IsPattern(w) && ps != [] && !ps[0].Number? && !Spells(w, ps)
    ensures ReplaceAll(Write(ps), w, c)
         == (if ps[0].Named? && NameOf(ps[0].e) == w then [c] else WriteToken(ps[0])) + ReplaceAll(Write(ps[1..]), w, c)
  {
    var rest := Write(ps[1..]);
    match ps[0] {
      case Raw(u) =>
        MatchIsSpelled(w, ps);
        assert Write(ps)[1..] == rest;
      case Named(e) =>
        NamesAre(e);
        if NameOf(e) == w {
          PatternIsReplaced(w, rest, c);
        } else {
          OtherEntityStays(NameOf(e), rest, w, c);
        }
    }
  }

  // ----- exactness

  /** The patterns of the six literal passes, in order. */
  const PATTERNS: seq<Text> := [QUOT_NAME, APOS_NUMBER, APOS_NAME, LT_NAME, GT_NAME, AMP_NAME]

  const CHARS: seq<Unit> := [QUOTE, 0x27, 0x27, 0x3C, 0x3E, AMPERSAND]

  /**
   * No loose ampersand is followed by something to be decoded: raw ampersands
   * and those written in decimal or hexadecimal become loose before the first
   * pass, after it and after the second one.
   */
  predicate Clean(ps: seq<Token>)
    requires ValidTokens(ps)
  {
    var a := Resolve(10, ps);
    var b := Resolve(16, a);
    && !SpellsSomeReference(10, ps)
    && !SpellsSomeReference(16, a)
    && forall i :: 0 <= i < 6 ==> !SpellsSome(PATTERNS[i], b)
  }

  lemma PatternsAre(i: nat)
    requires i < 6
    ensures |PATTERNS| == |CHARS| == 6 && IsPattern(PATTERNS[i])
    ensures forall e: Entity :: NameOf(e) == PATTERNS[i] ==> CharOf(e) == CHARS[i]
    ensures i < 5 ==> forall j :: 0 <= j < 6 ==> CHARS[i] !in PATTERNS[j]
  {
    PatternsHold();
    hide *;
    if i == 1 {
      ApostropheIsPattern();
    } else {
      NameIsPattern(if i == 0 then Quot else if i == 2 then Apos else if i == 3 then Lt else if i == 4 then Gt else Amp);
    }
  }

  lemma PatternsHold()
    ensures |PATTERNS| == |CHARS| == 6
    ensures PATTERNS[0] == NameOf(Quot) && PATTERNS[1] == APOS_NUMBER && PATTERNS[2] == NameOf(Apos)
    ensures PATTERNS[3] == NameOf(Lt) && PATTERNS[4] == NameOf(Gt) && PATTERNS[5] == NameOf(Amp)
    ensures CHARS[0] == CharOf(Quot) && CHARS[2] == CharOf(Apos) && CHARS[3] == CharOf(Lt)
    ensures CHARS[4] == CharOf(Gt) && CHARS[5] == CharOf(Amp)
    ensures forall i, j :: 0 <= i < 5 && 0 <= j < 6 ==> CHARS[i] !in PATTERNS[j]
  {
  }

  lemma NameIsPattern(f: Entity)
    ensures IsPattern(NameOf(f))
    ensures forall e: Entity :: NameOf(e) == NameOf(f) ==> CharOf(e) == CharOf(f)
  {
    NamesAre(f);
    forall e: Entity | e != f ensures |NameOf(e)| >= 3 && (NameOf(e)[1] != NameOf(f)[1] || NameOf(e)[2] != NameOf(f)[2]) {
      NamesDiffer(e, f);
    }
    forall e: Entity ensures |NameOf(e)| >= 3 {
      NamesAre(e);
    }
    hide NameOf, CharOf;
  }

  lemma ApostropheIsPattern()
    ensures IsPattern(APOS_NUMBER)
    ensures forall e: Entity :: NameOf(e) != APOS_NUMBER
  {
    assert |APOS_NUMBER| == 6 && APOS_NUMBER[0] == AMPERSAND && APOS_NUMBER[1] == HASH;
    assert AMPERSAND !in APOS_NUMBER[1..] by {
      assert APOS_NUMBER[1..] == [HASH, 0x30, 0x33, 0x39, SEMICOLON];
    }
    forall e: Entity ensures |NameOf(e)| >= 4 && NameOf(e)[1] != HASH {
      NamesAre(e);
    }
    hide NameOf;
  }

  lemma NamesDiffer(e: Entity, f: Entity)
    requires e != f
    ensures |NameOf(e)| >= 3 && |NameOf(f)| >= 3
    ensures NameOf(e)[1] != NameOf(f)[1] || NameOf(e)[2] != NameOf(f)[2]
  {
  }

  /** Resolving other names neither hides nor creates a spelled pattern. */
  lemma SpellingSurvives(w: Text, pattern: Text, c: Unit, ps: seq<Token>)
    requires c !in w
    ensures SpellsSome(w, ResolveName(pattern, c, ps)) <==> SpellsSome(w, ps)
  {
    var qs := ResolveName(pattern, c, ps);
    hide NameOf;
    forall i | 0 <= i < |ps| ensures Spells(w, qs[i..]) <==> Spells(w, ps[i..]) {
      if |w| <= |ps| - i {
        forall k | 0 <= k < |w| ensures qs[i + k] == Raw(w[k]) <==> ps[i + k] == Raw(w[k]) {
          assert w[k] in w;
        }
        assert forall k :: 0 <= k < |w| ==> qs[i..][..|w|][k] == qs[i + k] && ps[i..][..|w|][k] == ps[i + k];
        if Spells(w, qs[i..]) {
          assert forall k :: 0 <= k < |w| ==> qs[i..][..|w|][k] == Raw(w[k]);
          assert ps[i..][..|w|] == Raws(w);
        }
        if Spells(w, ps[i..]) {
          assert forall k :: 0 <= k < |w| ==> ps[i..][..|w|][k] == Raw(w[k]);
          assert qs[i..][..|w|] == Raws(w);
        }
      }
    }
  }

  /** The literal passes from the i-th on. */
  function LiteralPassesFrom(i: nat, t: Text): (r: Text)
    requires i <= 6
    decreases 6 - i
  {
    if i == 6 then t else LiteralPassesFrom(i + 1, ReplaceAll(t, PATTERNS[i], CHARS[i]))
  }

  lemma {:induction false} LiteralsDecode(i: nat, b: seq<Token>)
    requires i <= 6 && ValidTokens(b) && NoNumbers(b)
    requires forall p, j :: p in b && p.Named? && 0 <= j < i ==> NameOf(p.e) != PATTERNS[j]
    ensures |LiteralPassesFrom(i, Write(b))| <= |ValueOf(b)|
    ensures LiteralPassesFrom(i, Write(b)) == ValueOf(b) <==> forall j :: i <= j < 6 ==> !SpellsSome(PATTERNS[j], b)
    decreases 6 - i
  {
    hide *;
    if i == 6 {
      OnlyRaws(b);
      LastPass(Write(b));
    } else {
      PatternsAre(i);
      var c := LiteralPass(PATTERNS[i], CHARS[i], b);
      LiteralsDecode(i + 1, c);
      PassStep(i, Write(b));
      if !SpellsSome(PATTERNS[i], b) {
        forall j | i < j < 6 ensures SpellsSome(PATTERNS[j], c) <==> SpellsSome(PATTERNS[j], b) {
          SpellingSurvives(PATTERNS[j], PATTERNS[i], CHARS[i], b);
        }
      }
    }
  }

  lemma LastPass(t: Text)
    ensures LiteralPassesFrom(6, t) == t
  {
  }

  lemma PassStep(i: nat, t: Text)
    requires i < 6
    ensures PATTERNS[i] != [] && LiteralPassesFrom(i, t) == LiteralPassesFrom(i + 1, ReplaceAll(t, PATTERNS[i], CHARS[i]))
  {
    PatternsAre(i);
  }

  lemma {:induction false} OnlyRaws(ps: seq<Token>)
    requires ValidTokens(ps) && NoNumbers(ps)
    requires forall p, j :: p in ps && p.Named? && 0 <= j < 6 ==> NameOf(p.e) != PATTERNS[j]
    ensures Write(ps) == ValueOf(ps)
  {
    if ps != [] {
      RestIsValid(ps, 1);
      OnlyRaws(ps[1..]);
      assert ps[0] in ps;
      if ps[0].Named? {
        NameIsListed(ps[0].e);
      }
    }
  }

  lemma NameIsListed(e: Entity)
    ensures exists j :: 0 <= j < 6 && NameOf(e) == PATTERNS[j]
  {
    var j := match e case Quot => 0 case Apos => 2 case Lt => 3 case Gt => 4 case Amp => 5;
    assert NameOf(e) == PATTERNS[j];
  }

  lemma DecodeIsPasses(value: Text)
    ensures DecodeHtmlEntities(value) == LiteralPassesFrom(0, ReplaceNumbers(16, ReplaceNumbers(10, value)))
  {
    hide ReplaceNumbers, ReplaceAll;
  }

  /**
   * For every text a writer may produce, from raw characters, ampersands
   * included, names, and decimal and hexadecimal references in any mixture: the
   * chain of passes reads it as a single pass would exactly when no loose ampersand is
   * followed by something to be decoded. Otherwise the result is shorter.
   */
  lemma DecodesOnceExactlyWhen(ps: seq<Token>)
    requires ValidTokens(ps)
    ensures DecodeHtmlEntities(Write(ps)) == ValueOf(ps) <==> Clean(ps)
    ensures |DecodeHtmlEntities(Write(ps))| <= |ValueOf(ps)|
  {
    hide *;
    DecodeIsPasses(Write(ps));
    var a := NumericPass(10, ps);
    var b := NumericPass(16, a);
    OnlyTwoBases(ps, a, b);
    LiteralsDecode(0, b);
    CleanIs(ps);
  }

  lemma CleanIs(ps: seq<Token>)
    requires ValidTokens(ps)
    ensures var a := Resolve(10, ps);
            var b := Resolve(16, a);
            Clean(ps) <==> !SpellsSomeReference(10, ps) && !SpellsSomeReference(16, a)
                           && forall i :: 0 <= i < 6 ==> !SpellsSome(PATTERNS[i], b)
  {
    hide Resolve, SpellsSomeReference, SpellsSome;
  }

  lemma OnlyTwoBases(ps: seq<Token>, a: seq<Token>, b: seq<Token>)
    requires ValidTokens(ps)
    requires LeavesOthers(10, a, ps) && LeavesOthers(16, b, a)
    ensures NoNumbers(b)
  {
    assert forall p :: p in ps && p.Number? ==> p.base == 10 || p.base == 16;
  }

  // ----- writers that leave no ampersand loose

  predicate NoLoose(ps: seq<Token>)
    requires ValidTokens(ps)
  {
    forall p :: p in ps ==> AMPERSAND in TokenValue(p) ==> p.Named?
  }

  lemma {:induction false} ResolveLeavesNoLoose(base: nat, ps: seq<Token>)
    requires ValidTokens(ps) && NoLoose(ps)
    ensures NoLoose(Resolve(base, ps))
  {
    if ps != [] {
      hide TokenValue, ValidToken;
      RestIsValid(ps, 0);
      RestIsValid(ps, 1);
      assert ps[0] in ps && forall p :: p in ps[1..] ==> p in ps;
      ResolveLeavesNoLoose(base, ps[1..]);
      if ps[0].Number? {
        assert AMPERSAND !in TokenValue(ps[0]);
        RawsHold(TokenValue(ps[0]));
      }
    }
  }

  lemma RawsHold(t: Text)
    ensures forall p :: p in Raws(t) ==> p.Raw? && ValidToken(p) && TokenValue(p) == [p.u] && p.u in t
  {
  }

  lemma NoLooseSpelling(ps: seq<Token>)
    requires ValidTokens(ps) && NoLoose(ps)
    ensures !SpellsSomeReference(10, ps) && !SpellsSomeReference(16, ps)
    ensures forall w: Text :: w != [] && w[0] == AMPERSAND ==> !SpellsSome(w, ps)
  {
    forall i | 0 <= i < |ps| ensures ps[i] != AMP_RAW && ps[i..][0] == ps[i] {
      assert ps[i] in ps;
      assert AMPERSAND in TokenValue(AMP_RAW);
    }
    hide BeginsReference, Spells;
    forall w: Text | w != [] && w[0] == AMPERSAND ensures !SpellsSome(w, ps) {
      forall i | 0 <= i < |ps| ensures !Spells(w, ps[i..]) {
        SpelledBegins(w, ps[i..]);
      }
    }
  }

  lemma SpelledBegins(w: Text, ps: seq<Token>)
    requires w != [] && w[0] == AMPERSAND
    ensures Spells(w, ps) ==> ps != [] && ps[0] == AMP_RAW
  {
    if Spells(w, ps) {
      assert ps[0] == ps[..|w|][0] == Raws(w)[0];
    }
  }

  /** Whatever mixture a writer chooses: as long as every ampersand is written by name, every character is decoded exactly once. */
  lemma DecodesExactlyOnce(ps: seq<Token>)
    requires ValidTokens(ps) && NoLoose(ps)
    ensures DecodeHtmlEntities(Write(ps)) == ValueOf(ps)
  {
    var a := Resolve(10, ps);
    var b := Resolve(16, a);
    ResolveLeavesNoLoose(10, ps);
    ResolveLeavesNoLoose(16, a);
    NoLooseSpelling(ps);
    NoLooseSpelling(a);
    NoLooseSpelling(b);
    hide ValidTokens, NoLoose, SpellsSome, SpellsSomeReference, Resolve, DecodeHtmlEntities;
    forall i | 0 <= i < 6 ensures !SpellsSome(PATTERNS[i], b) {
      PatternsAre(i);
    }
    DecodesOnceExactlyWhen(ps);
  }

  function EscapeUnit(u: Unit): (p: Token)
    ensures ValidToken(p) && TokenValue(p) == [u] && p != AMP_RAW && !p.Number?
  {
    if u == AMPERSAND then Named(Amp)
    else if u == CharOf(Lt) then Named(Lt)
    else if u == CharOf(Gt) then Named(Gt)
    else if u == CharOf(Quot) then Named(Quot)
    else if u == CharOf(Apos) then Named(Apos)
    else Raw(u)
  }

  /** The usual escaper: the five special characters by name. */
  function Escaped(s: Text): (ps: seq<Token>) {
    seq(|s|, i requires 0 <= i < |s| => EscapeUnit(s[i]))
  }

  /** Decoding undoes escaping for every string, entities in it included. */
  lemma DecodeUndoesEscape(s: Text)
    ensures DecodeHtmlEntities(Write(Escaped(s))) == s
  {
    hide DecodeHtmlEntities, Write;
    EscapedValue(s);
    DecodesExactlyOnce(Escaped(s));
  }

  lemma {:induction false} EscapedValue(s: Text)
    ensures ValidTokens(Escaped(s)) && NoLoose(Escaped(s)) && ValueOf(Escaped(s)) == s
  {
    if s != [] {
      EscapedValue(s[1..]);
      assert Escaped(s) == [EscapeUnit(s[0])] + Escaped(s[1..]);
      assert Escaped(s)[1..] == Escaped(s[1..]);
    }
  }

  // ----- the value of a reference

  /** A number in base 10 or 16. */
  function Digits(base: nat, n: nat): (t: Text)
    requires base == 10 || base == 16
    ensures t != []
  {
    if n < base then [HexDigit(n)] else Digits(base, n / base) + [HexDigit(n % base)]
  }

  lemma {:induction false} DigitsReadBack(base: nat, n: nat)
    requires base == 10 || base == 16
    ensures (forall u :: u in Digits(base, n) ==> IsHexDigit(u) && IsBaseDigit(base, u))
    ensures NumberOf(base, Digits(base, n)) == n
  {
    if n < base {
      DigitIs(base, n);
      assert [HexDigit(n)][..0] == [];
    } else {
      DigitsReadBack(base, n / base);
      DigitIs(base, n % base);
      var front := Digits(base, n / base);
      assert Digits(base, n)[..|front|] == front;
      assert n == n / base * base + n % base;
    }
  }

  lemma DigitIs(base: nat, d: nat)
    requires (base == 10 || base == 16) && d < base
    ensures IsHexDigit(HexDigit(d)) && IsBaseDigit(base, HexDigit(d)) && DigitValue(HexDigit(d)) == d
  {
  }

  /** A code point is one unit, a surrogate pair that stands for it (section 3.9 of the Unicode standard), or nothing outside the code space. */
  lemma CodePointIs(code: nat)
    ensures var t := FromCodePoint(code);
            if code >= 0x11_0000 then t == []
            else if code < 0x1_0000 then t == [code]
            else
              && |t| == 2 && 0xD800 <= t[0] < 0xDC00 <= t[1] < 0xE000
              && var high: int, low: int := t[0], t[1]; (high - 0xD800) * 0x400 + (low - 0xDC00) + 0x1_0000 == code
  {
  }

  /** Every character but the ampersand, written as a numeric reference of either base, is decoded to that character. */
  lemma ReferenceIsDecoded(base: nat, n: nat)
    requires (base == 10 || base == 16) && n != 38
    ensures DecodeHtmlEntities(Ascii(if base == 10 then "&#" else "&#x") + Digits(base, n) + Ascii(";")) == FromCodePoint(n)
  {
    hide *;
    var token := Number(base, 0x78, Digits(base, n));
    TokenIs(base, n);
    PlainReference(token);
    DecodesExactlyOnce([token]);
  }

  lemma PlainReference(token: Token)
    requires ValidToken(token) && AMPERSAND !in TokenValue(token)
    ensures ValidTokens([token]) && NoLoose([token])
    ensures Write([token]) == WriteToken(token) && ValueOf([token]) == TokenValue(token)
  {
    assert WriteToken(token) + [] == WriteToken(token) && TokenValue(token) + [] == TokenValue(token);
    hide WriteToken, TokenValue, ValidToken;
  }

  lemma TokenIs(base: nat, n: nat)
    requires (base == 10 || base == 16) && n != 38
    ensures var token := Number(base, 0x78, Digits(base, n));
            && ValidToken(token) && TokenValue(token) == FromCodePoint(n) && AMPERSAND !in TokenValue(token)
            && WriteToken(token) == Ascii(if base == 10 then "&#" else "&#x") + Digits(base, n) + Ascii(";")
  {
    DigitsReadBack(base, n);
    OpeningsAre();
    NoAmpersandIn(n);
    hide Digits, NumberOf, FromCodePoint, Ascii;
  }

  lemma NoAmpersandIn(n: nat)
    requires n != 38
    ensures AMPERSAND !in FromCodePoint(n)
  {
  }

  lemma OpeningsAre()
    ensures Ascii("&#") == [AMPERSAND, HASH] && Ascii("&#x") == [AMPERSAND, HASH, 0x78] && Ascii(";") == [SEMICOLON]
  {
  }

  /** The names and what they stand for. */
  lemma NamesAndCharacters()
    ensures NameOf(Quot) == Ascii("&quot;") && NameOf(Apos) == Ascii("&apos;") && NameOf(Lt) == Ascii("&lt;")
    ensures NameOf(Gt) == Ascii("&gt;") && NameOf(Amp) == Ascii("&amp;") && APOS_NUMBER == Ascii("&#039;")
    ensures [CharOf(Quot), CharOf(Apos), CharOf(Lt), CharOf(Gt), CharOf(Amp)] == Ascii("\"'<>&")
  {
  }

  // ----- a loose ampersand

  /** An ampersand written as a number is decoded too early, and what follows it is decoded again. */
  lemma NumericAmpersandDecodesTwice()
    ensures DecodeHtmlEntities(Ascii("&#38;lt;")) == Ascii("<")
  {
    hide *;
    var written, text := [Named(Lt)], Ascii("&#38;lt;");
    ExampleText();
    NumericAmpersandGoesFirst();
    NameStays(Lt);
    DecodeIsPasses(text);
    DecodeIsPasses(Write(written));
    DecodesExactlyOnce(written);
  }

  lemma NameStays(e: Entity)
    ensures ReplaceNumbers(10, Write([Named(e)])) == Write([Named(e)])
  {
    NamesAre(e);
    AmpersandStays(10, NameOf(e), []);
    assert NameOf(e) + [] == NameOf(e) == Write([Named(e)]);
  }

  lemma ExampleText()
    ensures Ascii("&#38;lt;") == [AMPERSAND, HASH] + [0x33, 0x38] + [SEMICOLON] + [0x6C, 0x74, 0x3B]
    ensures Write([Named(Lt)]) == [AMPERSAND] + [0x6C, 0x74, 0x3B]
    ensures ValidTokens([Named(Lt)]) && NoLoose([Named(Lt)]) && ValueOf([Named(Lt)]) == Ascii("<")
  {
    assert Write([Named(Lt)]) == NameOf(Lt);
  }

  lemma NumericAmpersandGoesFirst()
    ensures ReplaceNumbers(10, [AMPERSAND, HASH] + [0x33, 0x38] + [SEMICOLON] + [0x6C, 0x74, 0x3B])
            == [AMPERSAND] + [0x6C, 0x74, 0x3B]
  {
    var digits, rest: Text := [0x33, 0x38], [0x6C, 0x74, 0x3B];
    var t := [AMPERSAND, HASH] + digits + [SEMICOLON] + rest;
    assert t[2..] == digits + ([SEMICOLON] + rest);
    DigitRunStops(10, digits, [SEMICOLON] + rest);
    assert t[2..][..2] == digits && t[5..] == rest;
    ThirtyEight();
    NumbersPass(10, rest, []);
    assert rest + [] == rest;
    hide DigitRun, NumberOf;
  }

  lemma ThirtyEight()
    ensures NumberOf(10, [0x33, 0x38]) == 38
  {
    var digits: Text := [0x33, 0x38];
    assert digits[..1] == [0x33] && [0x33][..0] == [];
    assert NumberOf(10, [0x33]) == 3;
  }
}
