/**
 * Cutting JSON out of page source: the bounded brace scanner for embedded
 * objects and the quote scanner for the prerendered state.
 */
module JsonScan {
  import opened Maybe
  import opened CodeUnits

  // ----- JSON text (sections 2 to 7 of RFC 8259)

  /** One element of a string literal. */
  datatype Piece = Plain(u: Unit) | Escape(u: Unit) | Hex(a: Unit, b: Unit, c: Unit, d: Unit)

  const ESCAPES: set<Unit> := {0x22, 0x5C, 0x2F, 0x62, 0x66, 0x6E, 0x72, 0x74}

  predicate ValidPiece(p: Piece) {
    match p
    case Plain(u) => u >= 0x20 && u != QUOTE && u != BACKSLASH
    case Escape(u) => u in ESCAPES
    case Hex(a, b, c, d) => IsHexDigit(a) && IsHexDigit(b) && IsHexDigit(c) && IsHexDigit(d)
  }

  predicate ValidPieces(ps: seq<Piece>) {
    forall p :: p in ps ==> ValidPiece(p)
  }

  function PrintPiece(p: Piece): (t: Text) {
    match p
    case Plain(u) => [u]
    case Escape(u) => [BACKSLASH, u]
    case Hex(a, b, c, d) => [BACKSLASH, 0x75, a, b, c, d]
  }

  function PrintPieces(ps: seq<Piece>): (t: Text) {
    if ps == [] then [] else PrintPiece(ps[0]) + PrintPieces(ps[1..])
  }

  function PrintString(ps: seq<Piece>): (t: Text) {
    [QUOTE] + PrintPieces(ps) + [QUOTE]
  }

  /** A value together with the layout of one printing of it. */
  datatype Value =
    | Scalar(text: Text)
    | Str(pieces: seq<Piece>)
    | Arr(gap: Text, items: Items)
    | Obj(gap: Text, members: Members)

  datatype Items = NoItems | Item(before: Text, item: Value, after: Text, rest: Items)

  datatype Members =
    | NoMembers
    | Member(before: Text, key: seq<Piece>, beforeColon: Text, afterColon: Text, value: Value, after: Text, others: Members)

  predicate IsSpace(t: Text) {
    forall u :: u in t ==> u == 0x20 || u == 0x09 || u == 0x0A || u == 0x0D
  }

  /** A literal name, or a run of the characters numbers are written with. */
  predicate IsScalar(t: Text) {
    || t == Ascii("true") || t == Ascii("false") || t == Ascii("null")
    || (t != [] && forall u :: u in t ==> IsDigit(u) || u == 0x2B || u == 0x2D || u == 0x2E || u == 0x45 || u == 0x65)
  }

  predicate ValidValue(v: Value) {
    match v
    case Scalar(t) => IsScalar(t)
    case Str(ps) => ValidPieces(ps)
    case Arr(gap, items) => IsSpace(gap) && ValidItems(items)
    case Obj(gap, members) => IsSpace(gap) && ValidMembers(members)
  }

  predicate ValidItems(items: Items) {
    match items
    case NoItems => true
    case Item(before, item, after, rest) => IsSpace(before) && ValidValue(item) && IsSpace(after) && ValidItems(rest)
  }

  predicate ValidMembers(members: Members) {
    match members
    case NoMembers => true
    case Member(before, key, beforeColon, afterColon, value, after, others) =>
      && IsSpace(before) && ValidPieces(key) && IsSpace(beforeColon) && IsSpace(afterColon)
      && ValidValue(value) && IsSpace(after) && ValidMembers(others)
  }

  const COMMA: Unit := 0x2C
  const COLON: Unit := 0x3A
  const LEFT_BRACKET: Unit := 0x5B
  const RIGHT_BRACKET: Unit := 0x5D

  function Print(v: Value): (t: Text) {
    match v
    case Scalar(text) => text
    case Str(ps) => PrintString(ps)
    case Arr(gap, items) => [LEFT_BRACKET] + gap + PrintItems(items, true) + [RIGHT_BRACKET]
    case Obj(gap, members) => [LEFT_BRACE] + (gap + PrintMembers(members, true)) + [RIGHT_BRACE]
  }

  function PrintItems(items: Items, first: bool): (t: Text) {
    match items
    case NoItems => []
    case Item(before, item, after, rest) =>
      (if first then [] else [COMMA]) + before + Print(item) + after + PrintItems(rest, false)
  }

  function PrintMembers(members: Members, first: bool): (t: Text) {
    match members
    case NoMembers => []
    case Member(before, key, beforeColon, afterColon, value, after, others) =>
      (if first then [] else [COMMA]) + before + PrintString(key) + beforeColon + [COLON] + afterColon
      + Print(value) + after + PrintMembers(others, false)
  }

  // ----- the brace scanner

  datatype Scan = Scan(depth: int, quoted: bool, escaped: bool)

  function Step(s: Scan, u: Unit): (t: Scan) {
    if s.quoted then
      if s.escaped then s.(escaped := false)
      else if u == BACKSLASH then s.(escaped := true)
      else if u == QUOTE then s.(quoted := false)
      else s
    else if u == QUOTE then s.(quoted := true)
    else if u == LEFT_BRACE then s.(depth := s.depth + 1)
    else if u == RIGHT_BRACE then s.(depth := s.depth - 1)
    else s
  }

  /** The character ends the object that the scan started on. */
  predicate Closes(s: Scan, u: Unit) {
    !s.quoted && u == RIGHT_BRACE && s.depth == 1
  }

  const MAX_OBJECT: nat := 128 * 1024

  function Bound(input: Text, start: nat): (end: nat) {
    if |input| < start + MAX_OBJECT then |input| else start + MAX_OBJECT
  }

  function ScanFrom(input: Text, start: nat, index: nat, s: Scan): (r: Option<Text>)
    requires start <= index
    decreases |input| - index
  {
    if index >= Bound(input, start) then None
    else if Closes(s, input[index]) then Some(input[start..index + 1])
    else ScanFrom(input, start, index + 1, Step(s, input[index]))
  }

  const OUTSIDE := Scan(0, false, false)

  /** readJsonObject: the index loop with its depth, quoted and escaped flags. */
  method ReadJsonObject(input: Text, start: nat) returns (r: Option<Text>)
    ensures r == ScanFrom(input, start, start, OUTSIDE)
  {
    var depth, quoted, escaped := 0, false, false;
    var index := start;
    while index < Bound(input, start)
      invariant start <= index
      invariant ScanFrom(input, start, start, OUTSIDE) == ScanFrom(input, start, index, Scan(depth, quoted, escaped))
    {
      var unit := input[index];
      if quoted {
        if escaped {
          escaped := false;
        } else if unit == BACKSLASH {
          escaped := true;
        } else if unit == QUOTE {
          quoted := false;
        }
      } else if unit == QUOTE {
        quoted := true;
      } else if unit == LEFT_BRACE {
        depth := depth + 1;
      } else if unit == RIGHT_BRACE {
        depth := depth - 1;
        if depth == 0 {
          return Some(input[start..index + 1]);
        }
      }
      index := index + 1;
    }
    r := None;
  }

  /** Where the scan stands after some text, unless it closed its object on the way. */
  function Steps(s: Scan, t: Text): (r: Option<Scan>)
    decreases |t|
  {
    if t == [] then Some(s) else if Closes(s, t[0]) then None else Steps(Step(s, t[0]), t[1..])
  }

  lemma {:induction false} StepsConcat(s: Scan, a: Text, b: Text)
    ensures Steps(s, a + b) == if Steps(s, a).Some? then Steps(Steps(s, a).value, b) else None
    decreases |a|
  {
    if a == [] {
      assert a + b == b;
    } else {
      assert (a + b)[1..] == a[1..] + b;
      StepsConcat(Step(s, a[0]), a[1..], b);
    }
  }

  /** The scanner passes over text that does not close its object. */
  lemma {:induction false} ScanSkips(input: Text, start: nat, index: nat, s: Scan, n: nat)
    requires start <= index && index + n <= Bound(input, start)
    requires Steps(s, input[index..index + n]).Some?
    ensures ScanFrom(input, start, index, s) == ScanFrom(input, start, index + n, Steps(s, input[index..index + n]).value)
    decreases n
  {
    if n > 0 {
      var t := input[index..index + n];
      assert t[1..] == input[index + 1..index + 1 + (n - 1)];
      ScanSkips(input, start, index + 1, Step(s, t[0]), n - 1);
    }
  }

  function Open(depth: int): (s: Scan) {
    Scan(depth, false, false)
  }

  function Inside(depth: int): (s: Scan) {
    Scan(depth, true, false)
  }

  /** Text without quotes and braces leaves an open scan where it is. */
  lemma {:induction false} InertText(depth: int, t: Text)
    requires forall u :: u in t ==> u != QUOTE && u != LEFT_BRACE && u != RIGHT_BRACE
    ensures Steps(Open(depth), t) == Some(Open(depth))
  {
    if t != [] {
      assert t[0] in t && forall u :: u in t[1..] ==> u in t;
      InertText(depth, t[1..]);
    }
  }

  lemma PieceStays(depth: int, p: Piece)
    requires ValidPiece(p)
    ensures Steps(Inside(depth), PrintPiece(p)) == Some(Inside(depth))
  {
    match p {
      case Plain(u) =>
        assert [u][1..] == [];
      case Escape(u) =>
        assert [BACKSLASH, u][1..] == [u];
        One(Scan(depth, true, true), u);
      case Hex(a, b, c, d) =>
        var t: Text := [BACKSLASH, 0x75, a, b, c, d];
        assert t[1..] == [0x75, a, b, c, d] && t[1..][1..] == [a, b, c, d];
        var rest: Text := [a, b, c, d];
        InsidePlain(depth, rest);
        assert Steps(Inside(depth), t) == Steps(Scan(depth, true, true), t[1..]);
        assert Steps(Scan(depth, true, true), t[1..]) == Steps(Inside(depth), rest);
    }
  }

  lemma {:induction false} InsidePlain(depth: int, t: Text)
    requires forall u :: u in t ==> u != QUOTE && u != BACKSLASH
    ensures Steps(Inside(depth), t) == Some(Inside(depth))
  {
    if t != [] {
      assert t[0] in t && forall u :: u in t[1..] ==> u in t;
      InsidePlain(depth, t[1..]);
    }
  }

  lemma {:induction false} PiecesStay(depth: int, ps: seq<Piece>)
    requires ValidPieces(ps)
    ensures Steps(Inside(depth), PrintPieces(ps)) == Some(Inside(depth))
  {
    if ps != [] {
      PieceStays(depth, ps[0]);
      PiecesStay(depth, ps[1..]);
      StepsConcat(Inside(depth), PrintPiece(ps[0]), PrintPieces(ps[1..]));
    }
  }

  lemma One(s: Scan, u: Unit)
    requires !Closes(s, u)
    ensures Steps(s, [u]) == Some(Step(s, u))
  {
    assert [u][1..] == [];
  }

  /** Whatever braces or quotes a string contains, its literal leaves an open scan where it is. */
  lemma StringIsInert(depth: int, ps: seq<Piece>)
    requires ValidPieces(ps)
    ensures Steps(Open(depth), PrintString(ps)) == Some(Open(depth))
  {
    hide Steps;
    One(Open(depth), QUOTE);
    PiecesStay(depth, ps);
    One(Inside(depth), QUOTE);
    StepsConcat(Open(depth), [QUOTE], PrintPieces(ps));
    StepsConcat(Open(depth), [QUOTE] + PrintPieces(ps), [QUOTE]);
  }

  /** A printed value, and a printed list of items or members, leaves a scan inside an object where it is. */
  lemma {:induction false} ValueIsInert(depth: int, v: Value)
    requires depth >= 1 && ValidValue(v)
    ensures Steps(Open(depth), Print(v)) == Some(Open(depth))
    decreases v
  {
    match v {
      case Scalar(t) =>
        ScalarIsInert(depth, t);
      case Str(ps) =>
        StringIsInert(depth, ps);
      case Arr(gap, items) =>
        ItemsAreInert(depth, items, true);
        hide Steps, Step, PrintItems;
        One(Open(depth), LEFT_BRACKET);
        SpaceIsInert(depth, gap);
        One(Open(depth), RIGHT_BRACKET);
        StepsConcat(Open(depth), [LEFT_BRACKET], gap);
        StepsConcat(Open(depth), [LEFT_BRACKET] + gap, PrintItems(items, true));
        StepsConcat(Open(depth), [LEFT_BRACKET] + gap + PrintItems(items, true), [RIGHT_BRACKET]);
      case Obj(gap, members) =>
        BodyIsInert(depth + 1, gap, members);
        hide Steps, Step, PrintMembers;
        One(Open(depth), LEFT_BRACE);
        One(Open(depth + 1), RIGHT_BRACE);
        var body := gap + PrintMembers(members, true);
        StepsConcat(Open(depth), [LEFT_BRACE], body);
        StepsConcat(Open(depth), [LEFT_BRACE] + body, [RIGHT_BRACE]);
    }
  }

  lemma ScalarIsInert(depth: int, t: Text)
    requires IsScalar(t)
    ensures Steps(Open(depth), t) == Some(Open(depth))
  {
    if t == Ascii("true") || t == Ascii("false") || t == Ascii("null") {
      assert forall u :: u in t ==> u >= 0x61 && u <= 0x7A;
    }
    InertText(depth, t);
  }

  lemma SpaceIsInert(depth: int, t: Text)
    requires IsSpace(t)
    ensures Steps(Open(depth), t) == Some(Open(depth))
  {
    InertText(depth, t);
  }

  lemma {:induction false} BodyIsInert(depth: int, gap: Text, members: Members)
    requires depth >= 1 && IsSpace(gap) && ValidMembers(members)
    ensures Steps(Open(depth), gap + PrintMembers(members, true)) == Some(Open(depth))
    decreases members, 1
  {
    SpaceIsInert(depth, gap);
    MembersAreInert(depth, members, true);
    StepsConcat(Open(depth), gap, PrintMembers(members, true));
  }

  lemma Five(s: Scan, a: Text, b: Text, c: Text, d: Text, e: Text)
    requires Steps(s, a) == Some(s) && Steps(s, b) == Some(s) && Steps(s, c) == Some(s)
    requires Steps(s, d) == Some(s) && Steps(s, e) == Some(s)
    ensures Steps(s, a + b + c + d + e) == Some(s)
  {
    hide Steps;
    StepsConcat(s, a, b);
    StepsConcat(s, a + b, c);
    StepsConcat(s, a + b + c, d);
    StepsConcat(s, a + b + c + d, e);
  }

  lemma SeparatorIsInert(depth: int, first: bool)
    ensures var separator: Text := if first then [] else [COMMA];
            Steps(Open(depth), separator) == Some(Open(depth))
  {
    InertText(depth, [COMMA]);
  }

  lemma {:induction false} ItemsAreInert(depth: int, items: Items, first: bool)
    requires depth >= 1 && ValidItems(items)
    ensures Steps(Open(depth), PrintItems(items, first)) == Some(Open(depth))
    decreases items
  {
    match items {
      case NoItems =>
      case Item(before, item, after, rest) =>
        SeparatorIsInert(depth, first);
        SpaceIsInert(depth, before);
        SpaceIsInert(depth, after);
        ValueIsInert(depth, item);
        ItemsAreInert(depth, rest, false);
        hide Steps;
        Five(Open(depth), if first then [] else [COMMA], before, Print(item), after, PrintItems(rest, false));
    }
  }

  lemma {:induction false} MembersAreInert(depth: int, members: Members, first: bool)
    requires depth >= 1 && ValidMembers(members)
    ensures Steps(Open(depth), PrintMembers(members, first)) == Some(Open(depth))
    decreases members, 0
  {
    match members {
      case NoMembers =>
      case Member(before, key, beforeColon, afterColon, value, after, others) =>
        SeparatorIsInert(depth, first);
        SpaceIsInert(depth, before);
        SpaceIsInert(depth, beforeColon);
        SpaceIsInert(depth, afterColon);
        SpaceIsInert(depth, after);
        StringIsInert(depth, key);
        InertText(depth, [COLON]);
        ValueIsInert(depth, value);
        MembersAreInert(depth, others, false);
        hide Steps;
        var s := Open(depth);
        var head: Text := (if first then [] else [COMMA]) + before + PrintString(key) + beforeColon + [COLON];
        Five(s, if first then [] else [COMMA], before, PrintString(key), beforeColon, [COLON]);
        Five(s, head, afterColon, Print(value), after, PrintMembers(others, false));
    }
  }

  lemma {:induction false} StepsOfPrefix(s: Scan, t: Text, n: nat)
    requires n <= |t| && Steps(s, t).Some?
    ensures Steps(s, t[..n]).Some?
  {
    assert t == t[..n] + t[n..];
    StepsConcat(s, t[..n], t[n..]);
  }

  /**
   * The scanner inverts every JSON printer: started at the opening brace of a
   * printed object, inside any page, it returns exactly that text when it is at
   * most 128 KiB long, and nothing when it is longer.
   */
  lemma PrintedObjectIsCutOut(gap: Text, members: Members, before: Text, after: Text)
    requires IsSpace(gap) && ValidMembers(members)
    ensures var t := Print(Obj(gap, members));
            ScanFrom(before + t + after, |before|, |before|, OUTSIDE) == if |t| <= 128 * 1024 then Some(t) else None
  {
    var body := gap + PrintMembers(members, true);
    var t := Print(Obj(gap, members));
    var input, start := before + t + after, |before|;
    BodyIsInert(1, gap, members);
    hide Steps;
    One(OUTSIDE, LEFT_BRACE);
    StepsConcat(OUTSIDE, [LEFT_BRACE], body);
    var head := [LEFT_BRACE] + body;
    assert t == head + [RIGHT_BRACE];
    assert Steps(OUTSIDE, head) == Some(Open(1));
    if |t| <= MAX_OBJECT {
      assert input[start..start + |head|] == head;
      ScanSkips(input, start, start, OUTSIDE, |head|);
      assert input[start + |head|] == RIGHT_BRACE;
      assert input[start..start + |head| + 1] == t;
    } else {
      assert input[start..start + MAX_OBJECT] == head[..MAX_OBJECT];
      StepsOfPrefix(OUTSIDE, head, MAX_OBJECT);
      ScanSkips(input, start, start, OUTSIDE, MAX_OBJECT);
    }
  }

  /** Without an opening brace nothing is cut out. */
  lemma NothingWithoutOpening(input: Text, start: nat)
    requires forall k :: start <= k < |input| ==> input[k] != LEFT_BRACE
    ensures ScanFrom(input, start, start, OUTSIDE) == None
  {
    NeverOpens(input, start, start, OUTSIDE);
  }

  lemma {:induction false} NeverOpens(input: Text, start: nat, index: nat, s: Scan)
    requires start <= index && s.depth <= 0
    requires forall k :: start <= k < |input| ==> input[k] != LEFT_BRACE
    ensures ScanFrom(input, start, index, s) == None
    decreases |input| - index
  {
    if index < Bound(input, start) {
      NeverOpens(input, start, index + 1, Step(s, input[index]));
    }
  }

  // ----- string literals

  function HexValue(a: Unit, b: Unit, c: Unit, d: Unit): (u: Unit)
    requires ValidPiece(Hex(a, b, c, d))
  {
    ((DigitValue(a) * 16 + DigitValue(b)) * 16 + DigitValue(c)) * 16 + DigitValue(d)
  }

  function EscapeValue(u: Unit): (v: Unit)
    requires u in ESCAPES
  {
    if u == 0x62 then 0x08 else if u == 0x66 then 0x0C else if u == 0x6E then 0x0A
    else if u == 0x72 then 0x0D else if u == 0x74 then 0x09 else u
  }

  function PieceValue(p: Piece): (u: Unit)
    requires ValidPiece(p)
  {
    match p
    case Plain(u) => u
    case Escape(u) => EscapeValue(u)
    case Hex(a, b, c, d) => HexValue(a, b, c, d)
  }

  /** The string that a literal with these pieces stands for. */
  function StringValue(ps: seq<Piece>): (s: Text)
    requires ValidPieces(ps)
  {
    seq(|ps|, i requires 0 <= i < |ps| => PieceValue(ps[i]))
  }

  /** JSON.parse of a text that starts with a quote. */
  function ParseString(t: Text): (s: Option<Text>) {
    if t != [] && t[0] == QUOTE then ParseBody(t[1..]) else None
  }

  function ParseBody(t: Text): (s: Option<Text>) {
    if t == [] then None
    else if t[0] == QUOTE then (if |t| == 1 then Some([]) else None)
    else if t[0] < 0x20 then None
    else if t[0] != BACKSLASH then Prepend(t[0], ParseBody(t[1..]))
    else if |t| >= 2 && t[1] in ESCAPES then Prepend(EscapeValue(t[1]), ParseBody(t[2..]))
    else if |t| >= 6 && t[1] == 0x75 && ValidPiece(Hex(t[2], t[3], t[4], t[5])) then
      Prepend(HexValue(t[2], t[3], t[4], t[5]), ParseBody(t[6..]))
    else None
  }

  function Prepend(u: Unit, s: Option<Text>): (r: Option<Text>) {
    if s.Some? then Some([u] + s.value) else None
  }

  lemma ParsePiece(p: Piece, rest: Text)
    requires ValidPiece(p)
    ensures ParseBody(PrintPiece(p) + rest) == Prepend(PieceValue(p), ParseBody(rest))
  {
    var t := PrintPiece(p) + rest;
    assert t[|PrintPiece(p)|..] == rest;
    match p {
      case Plain(u) =>
      case Escape(u) => assert t[0] == BACKSLASH && t[1] == u;
      case Hex(a, b, c, d) => assert t[..6] == [BACKSLASH, 0x75, a, b, c, d] && 0x75 !in ESCAPES;
    }
  }

  /** Parsing undoes printing, whatever escapes the printer chose. */
  lemma {:induction false} PrintedStringParses(ps: seq<Piece>)
    requires ValidPieces(ps)
    ensures ParseString(PrintString(ps)) == Some(StringValue(ps))
  {
    PrintedBodyParses(ps);
    assert PrintString(ps)[1..] == PrintPieces(ps) + [QUOTE];
  }

  lemma {:induction false} PrintedBodyParses(ps: seq<Piece>)
    requires ValidPieces(ps)
    ensures ParseBody(PrintPieces(ps) + [QUOTE]) == Some(StringValue(ps))
  {
    if ps == [] {
      assert PrintPieces(ps) + [QUOTE] == [QUOTE];
      assert StringValue(ps) == [];
    } else {
      PrintedBodyParses(ps[1..]);
      ParsePiece(ps[0], PrintPieces(ps[1..]) + [QUOTE]);
      assert PrintPieces(ps) + [QUOTE] == PrintPiece(ps[0]) + (PrintPieces(ps[1..]) + [QUOTE]);
      assert StringValue(ps) == [PieceValue(ps[0])] + StringValue(ps[1..]);
    }
  }

  /** The minimal escaping of a string, as JSON.stringify writes it up to the short escapes for control characters. */
  function Escaped(s: Text): (ps: seq<Piece>)
    ensures ValidPieces(ps) && StringValue(ps) == s
  {
    seq(|s|, i requires 0 <= i < |s| => EscapedUnit(s[i]))
  }

  function EscapedUnit(u: Unit): (p: Piece)
    ensures ValidPiece(p) && PieceValue(p) == u
  {
    if u == QUOTE || u == BACKSLASH then Escape(u)
    else if u < 0x20 then Hex(0x30, 0x30, HexDigit(u / 16), HexDigit(u % 16))
    else Plain(u)
  }

  /** Nothing else parses: whatever parses is a printing of the result. */
  lemma ParsedStringIsPrinted(t: Text) returns (ps: seq<Piece>)
    requires ParseString(t).Some?
    ensures ValidPieces(ps) && t == PrintString(ps) && ParseString(t).value == StringValue(ps)
  {
    ps := ParsedBodyIsPrinted(t[1..]);
    assert t == [QUOTE] + t[1..];
  }

  lemma {:induction false} ParsedBodyIsPrinted(t: Text) returns (ps: seq<Piece>)
    requires ParseBody(t).Some?
    ensures ValidPieces(ps) && t == PrintPieces(ps) + [QUOTE] && ParseBody(t).value == StringValue(ps)
    decreases |t|
  {
    if t[0] == QUOTE {
      ps := [];
      assert t == [QUOTE];
    } else {
      var p := if t[0] != BACKSLASH then Plain(t[0]) else if t[1] in ESCAPES then Escape(t[1]) else Hex(t[2], t[3], t[4], t[5]);
      var n := |PrintPiece(p)|;
      assert t == PrintPiece(p) + t[n..];
      ParsePiece(p, t[n..]);
      var later := ParsedBodyIsPrinted(t[n..]);
      ps := [p] + later;
      PrintedCons(p, later, t[n..]);
    }
  }

  lemma PrintedCons(p: Piece, ps: seq<Piece>, t: Text)
    requires ValidPiece(p) && ValidPieces(ps) && t == PrintPieces(ps) + [QUOTE]
    ensures ValidPieces([p] + ps) && PrintPiece(p) + t == PrintPieces([p] + ps) + [QUOTE]
    ensures StringValue([p] + ps) == [PieceValue(p)] + StringValue(ps)
  {
    hide PrintPiece, PieceValue, ValidPiece;
    assert ([p] + ps)[1..] == ps;
  }

  /** A code unit as four hexadecimal digits. */
  function HexPiece(u: Unit): (p: Piece)
    ensures ValidPiece(p)
  {
    Hex(HexDigit(u / 4096), HexDigit(u / 256 % 16), HexDigit(u / 16 % 16), HexDigit(u % 16))
  }

  lemma HexReadsBack(u: Unit)
    ensures PieceValue(HexPiece(u)) == u
  {
    hide HexDigit, DigitValue;
    FourDigits(u);
  }

  lemma FourDigits(n: nat)
    requires n < 0x1_0000
    ensures n / 4096 < 16 && ((n / 4096 * 16 + n / 256 % 16) * 16 + n / 16 % 16) * 16 + n % 16 == n
  {
    assert n / 256 == n / 4096 * 16 + n / 256 % 16;
    assert n / 16 == n / 256 * 16 + n / 16 % 16;
  }

  /** Every string, written with four hexadecimal digits for each code unit, comes back. */
  lemma HexStringParses(s: Text)
    ensures var ps := seq(|s|, i requires 0 <= i < |s| => HexPiece(s[i])); ParseString(PrintString(ps)) == Some(s)
  {
    var ps := seq(|s|, i requires 0 <= i < |s| => HexPiece(s[i]));
    assert ValidPieces(ps);
    PrintedStringParses(ps);
    forall i | 0 <= i < |s| ensures StringValue(ps)[i] == s[i] {
      HexReadsBack(s[i]);
    }
    assert StringValue(ps) == s;
  }

  /** The two-character escapes (section 7 of RFC 8259), in the order of their letters here and of their values there. */
  lemma EscapesAre()
    ensures ESCAPES == set k | 0 <= k < 8 :: Ascii("\"\\/bfnrt")[k]
    ensures forall k :: 0 <= k < 8 ==>
              Ascii("\"\\/bfnrt")[k] in ESCAPES && EscapeValue(Ascii("\"\\/bfnrt")[k]) == [34, 92, 47, 8, 12, 10, 13, 9][k]
  {
    var letters := Ascii("\"\\/bfnrt");
    assert letters == [0x22, 0x5C, 0x2F, 0x62, 0x66, 0x6E, 0x72, 0x74];
    forall u ensures u in ESCAPES <==> u in set k | 0 <= k < 8 :: letters[k] {
      if u in ESCAPES {
        var k := if u == 0x22 then 0 else if u == 0x5C then 1 else if u == 0x2F then 2 else if u == 0x62 then 3
          else if u == 0x66 then 4 else if u == 0x6E then 5 else if u == 0x72 then 6 else 7;
        assert letters[k] == u;
      }
    }
  }

  /** The punctuation the scanners go by. */
  lemma PunctuationIs()
    ensures Ascii("\"\\{}[],:&;#") == [QUOTE, BACKSLASH, LEFT_BRACE, RIGHT_BRACE, LEFT_BRACKET, RIGHT_BRACKET, COMMA, COLON, AMPERSAND, SEMICOLON, HASH]
  {
  }

  // ----- the prerendered state

  const MARKER: Text := Ascii("window.__PRERENDERED_STATE__=")

  datatype Extraction = NotFound | UnexpectedFormat | InvalidLiteral | StateText(text: Text)

  predicate StartsAt(html: Text, pattern: Text, i: nat) {
    i + |pattern| <= |html| && html[i..i + |pattern|] == pattern
  }

  function IndexFrom(html: Text, pattern: Text, i: nat): (r: Option<nat>)
    decreases |html| - i
  {
    if StartsAt(html, pattern, i) then Some(i)
    else if i < |html| then IndexFrom(html, pattern, i + 1)
    else None
  }

  /** White space as the source's regular expressions see it. */
  predicate IsWhite(u: Unit) {
    || 9 <= u <= 13 || u == 32 || u == 160 || u == 0x1680 || 0x2000 <= u <= 0x200A
    || u == 0x2028 || u == 0x2029 || u == 0x202F || u == 0x205F || u == 0x3000 || u == 0xFEFF
  }

  /** White space and line ends (sections 12.2 and 12.3 of ECMA-262), as code units. */
  const WHITE_SPACE: set<Unit> := {
    0x9, 0xA, 0xB, 0xC, 0xD, 0x20, 0xA0, 0x1680,
    0x2000, 0x2001, 0x2002, 0x2003, 0x2004, 0x2005, 0x2006, 0x2007, 0x2008, 0x2009, 0x200A,
    0x2028, 0x2029, 0x202F, 0x205F, 0x3000, 0xFEFF
  }

  lemma WhiteIsWhiteSpace()
    ensures forall u: Unit :: IsWhite(u) <==> u in WHITE_SPACE
  {
  }

  function SkipWhite(html: Text, pos: nat): (next: nat)
    requires pos <= |html|
    ensures pos <= next <= |html|
    decreases |html| - pos
  {
    if pos < |html| && IsWhite(html[pos]) then SkipWhite(html, pos + 1) else pos
  }

  /** Index of the quote that ends the literal, or the end of the page. */
  function LiteralEnd(html: Text, pos: nat, escaped: bool): (end: nat)
    requires pos <= |html|
    ensures pos <= end <= |html|
    decreases |html| - pos
  {
    if pos == |html| then pos
    else if escaped then LiteralEnd(html, pos + 1, false)
    else if html[pos] == BACKSLASH then LiteralEnd(html, pos + 1, true)
    else if html[pos] == QUOTE then pos
    else LiteralEnd(html, pos + 1, false)
  }

  function CutLiteral(html: Text, start: nat): (t: Text)
    requires start < |html|
  {
    var end := LiteralEnd(html, start + 1, false);
    html[start..if end < |html| then end + 1 else end]
  }

  function Extract(html: Text): (r: Extraction) {
    var at := IndexFrom(html, MARKER, 0);
    if at.None? || at.value + |MARKER| > |html| then NotFound
    else
      var start := SkipWhite(html, at.value + |MARKER|);
      if start == |html| || html[start] != QUOTE then UnexpectedFormat
      else
        var text := ParseString(CutLiteral(html, start));
        if text.Some? then StateText(text.value) else InvalidLiteral
  }

  /** extractPrerenderedState, up to parsing the state text itself. */
  method ExtractPrerenderedState(html: Text) returns (r: Extraction)
    ensures r == Extract(html)
  {
    hide ParseString, IndexFrom, Ascii, IsWhite, StartsAt;
    var at := IndexFrom(html, MARKER, 0);
    if at.None? || at.value + |MARKER| > |html| {
      return NotFound;
    }
    var pos := at.value + |MARKER|;
    while pos < |html| && IsWhite(html[pos])
      invariant pos <= |html|
      invariant SkipWhite(html, pos) == SkipWhite(html, at.value + |MARKER|)
    {
      pos := pos + 1;
    }
    if pos == |html| || html[pos] != QUOTE {
      return UnexpectedFormat;
    }
    var start := pos;
    var escaped := false;
    pos := pos + 1;
    while pos < |html|
      invariant start < pos <= |html|
      invariant LiteralEnd(html, pos, escaped) == LiteralEnd(html, start + 1, false)
    {
      var unit := html[pos];
      if escaped {
        escaped := false;
      } else if unit == BACKSLASH {
        escaped := true;
      } else if unit == QUOTE {
        break;
      }
      pos := pos + 1;
    }
    var text := ParseString(html[start..if pos < |html| then pos + 1 else pos]);
    r := if text.Some? then StateText(text.value) else InvalidLiteral;
  }

  lemma {:induction false} FirstOccurrence(html: Text, pattern: Text, i: nat, at: nat)
    requires i <= at && StartsAt(html, pattern, at)
    requires forall j :: i <= j < at ==> !StartsAt(html, pattern, j)
    ensures IndexFrom(html, pattern, i) == Some(at)
    decreases at - i
  {
    if i < at {
      FirstOccurrence(html, pattern, i + 1, at);
    }
  }

  lemma {:induction false} WhiteIsSkipped(html: Text, pos: nat, end: nat)
    requires pos <= end < |html| && !IsWhite(html[end])
    requires forall i :: pos <= i < end ==> IsWhite(html[i])
    ensures SkipWhite(html, pos) == end
    decreases end - pos
  {
    if pos < end {
      WhiteIsSkipped(html, pos + 1, end);
    }
  }

  lemma {:induction false} LiteralIsFollowed(html: Text, pos: nat, ps: seq<Piece>, after: Text)
    requires ValidPieces(ps) && pos <= |html|
    requires html[pos..] == PrintPieces(ps) + ([QUOTE] + after)
    ensures LiteralEnd(html, pos, false) == pos + |PrintPieces(ps)|
    decreases |ps|
  {
    hide *;
    if ps == [] {
      NoPieces(html, pos, after);
    } else {
      var piece, rest := PrintPiece(ps[0]), PrintPieces(ps[1..]) + ([QUOTE] + after);
      PiecesStep(ps);
      assert PrintPieces(ps) + ([QUOTE] + after) == piece + rest;
      SuffixAfter(html, pos, piece, rest);
      LiteralIsFollowed(html, pos + |piece|, ps[1..], after);
      PieceIsFollowed(html, pos, ps[0], rest);
    }
  }

  lemma NoPieces(html: Text, pos: nat, after: Text)
    requires pos <= |html| && html[pos..] == PrintPieces([]) + ([QUOTE] + after)
    ensures PrintPieces([]) == [] && LiteralEnd(html, pos, false) == pos
  {
    assert html[pos..][0] == QUOTE;
  }

  lemma SuffixAfter(html: Text, pos: nat, piece: Text, rest: Text)
    requires pos <= |html| && html[pos..] == piece + rest
    ensures pos + |piece| <= |html| && html[pos + |piece|..] == rest
  {
    assert html[pos + |piece|..] == html[pos..][|piece|..];
  }

  lemma PiecesStep(ps: seq<Piece>)
    requires ps != [] && ValidPieces(ps)
    ensures PrintPieces(ps) == PrintPiece(ps[0]) + PrintPieces(ps[1..])
    ensures ValidPiece(ps[0]) && ValidPieces(ps[1..])
  {
    hide ValidPiece;
    assert ps[0] in ps;
  }

  lemma PieceIsFollowed(html: Text, pos: nat, p: Piece, rest: Text)
    requires ValidPiece(p) && pos <= |html| && html[pos..] == PrintPiece(p) + rest
    ensures LiteralEnd(html, pos, false) == LiteralEnd(html, pos + |PrintPiece(p)|, false)
  {
    hide LiteralEnd;
    var t := html[pos..];
    match p {
      case Plain(u) =>
        assert html[pos] == t[0] == u;
        PlainRun(html, pos, 1);
      case Escape(u) =>
        assert html[pos] == t[0] == BACKSLASH && |t| >= 2;
        EscapeIsSkipped(html, pos);
      case Hex(a, b, c, d) =>
        assert html[pos] == t[0] == BACKSLASH && |t| >= 6;
        EscapeIsSkipped(html, pos);
        assert html[pos + 2] == t[2] == a && html[pos + 3] == t[3] == b && html[pos + 4] == t[4] == c && html[pos + 5] == t[5] == d;
        PlainRun(html, pos + 2, 4);
    }
  }

  lemma EscapeIsSkipped(html: Text, pos: nat)
    requires pos + 2 <= |html| && html[pos] == BACKSLASH
    ensures LiteralEnd(html, pos, false) == LiteralEnd(html, pos + 2, false)
  {
    assert LiteralEnd(html, pos + 1, true) == LiteralEnd(html, pos + 2, false);
  }

  lemma {:induction false} PlainRun(html: Text, pos: nat, n: nat)
    requires pos + n <= |html|
    requires forall k :: pos <= k < pos + n ==> html[k] != QUOTE && html[k] != BACKSLASH
    ensures LiteralEnd(html, pos, false) == LiteralEnd(html, pos + n, false)
    decreases n
  {
    if n > 0 {
      PlainRun(html, pos + 1, n - 1);
    }
  }

  lemma LiteralIsCut(html: Text, start: nat, ps: seq<Piece>, after: Text)
    requires ValidPieces(ps) && start <= |html| && html[start..] == PrintString(ps) + after
    ensures start < |html| && html[start] == QUOTE && CutLiteral(html, start) == PrintString(ps)
  {
    var t, n := html[start..], |PrintPieces(ps)|;
    assert html[start] == t[0] == QUOTE;
    assert html[start + 1..] == t[1..] == PrintPieces(ps) + ([QUOTE] + after);
    LiteralIsFollowed(html, start + 1, ps, after);
    assert html[start..start + n + 2] == t[..n + 2] == PrintString(ps);
  }

  function StateMarker(): (t: Text) {
    Ascii("window.__PRERENDERED_STATE__=")
  }

  /**
   * For every string and every way of writing it as a literal after the first
   * marker, the quote scanner cuts out exactly that literal, so the extraction
   * yields the string.
   */
  lemma PrintedStateIsExtracted(before: Text, white: Text, ps: seq<Piece>, after: Text)
    requires ValidPieces(ps) && forall u :: u in white ==> u in WHITE_SPACE
    requires var html := before + (StateMarker() + (white + (PrintString(ps) + after)));
             forall j :: 0 <= j < |before| ==> !StartsAt(html, StateMarker(), j)
    ensures var html := before + (StateMarker() + (white + (PrintString(ps) + after)));
            && CutLiteral(html, |before| + |StateMarker()| + |white|) == PrintString(ps)
            && Extract(html) == StateText(StringValue(ps))
  {
    hide Ascii, PrintString, IsWhite, LiteralEnd, ParseString, IndexFrom, StringValue, SkipWhite, StartsAt, ValidPieces, CutLiteral;
    var html := before + (MARKER + (white + (PrintString(ps) + after)));
    var start := |before| + |MARKER| + |white|;
    PartsOf(before, MARKER, white, PrintString(ps) + after);
    FirstOccurrence(html, MARKER, 0, |before|);
    LiteralIsCut(html, start, ps, after);
    QuoteIsNotWhite();
    WhiteIsWhiteSpace();
    WhiteIsSkipped(html, |before| + |MARKER|, start);
    PrintedStringParses(ps);
  }

  lemma QuoteIsNotWhite()
    ensures !IsWhite(QUOTE)
  {
  }

  lemma PartsOf(a: Text, b: Text, c: Text, d: Text)
    ensures var t := a + (b + (c + d));
            && StartsAt(t, b, |a|)
            && (forall i :: |a| + |b| <= i < |a| + |b| + |c| ==> t[i] in c)
            && t[|a| + |b| + |c|..] == d
  {
    var t := a + (b + (c + d));
    assert t[|a|..|a| + |b|] == b;
    forall i | |a| + |b| <= i < |a| + |b| + |c| ensures t[i] in c {
      assert t[i] == c[i - |a| - |b|];
    }
  }

  /** Decoding twice undoes encoding twice: a string printed as a literal inside a printed literal comes back whole. */
  lemma DoubleEncodingRoundTrips(before: Text, white: Text, inner: seq<Piece>, outer: seq<Piece>, after: Text)
    requires ValidPieces(inner) && ValidPieces(outer) && StringValue(outer) == PrintString(inner)
    requires forall u :: u in white ==> u in WHITE_SPACE
    requires var html := before + (StateMarker() + (white + (PrintString(outer) + after)));
             forall j :: 0 <= j < |before| ==> !StartsAt(html, StateMarker(), j)
    ensures var r := Extract(before + (StateMarker() + (white + (PrintString(outer) + after))));
            r.StateText? && ParseString(r.text) == Some(StringValue(inner))
  {
    PrintedStateIsExtracted(before, white, outer, after);
    PrintedStringParses(inner);
  }

  lemma {:induction false} IndexIsFirst(html: Text, pattern: Text, i: nat)
    ensures var at := IndexFrom(html, pattern, i);
            if at.Some? then at.value >= i && StartsAt(html, pattern, at.value) && forall j :: i <= j < at.value ==> !StartsAt(html, pattern, j)
            else pattern != [] ==> forall j :: i <= j ==> !StartsAt(html, pattern, j)
    decreases |html| - i
  {
    hide StartsAt;
    if !StartsAt(html, pattern, i) {
      if i < |html| {
        IndexIsFirst(html, pattern, i + 1);
      } else {
        PastTheEnd(html, pattern, i);
      }
    }
  }

  lemma PastTheEnd(html: Text, pattern: Text, i: nat)
    requires i >= |html|
    ensures pattern != [] ==> forall j :: i <= j ==> !StartsAt(html, pattern, j)
  {
  }

  /** The extraction finds nothing exactly when the page has no marker. */
  lemma NotFoundExactlyWhen(html: Text)
    ensures Extract(html) == NotFound <==> forall j: nat :: !StartsAt(html, StateMarker(), j)
  {
    assert MARKER == StateMarker();
    IndexIsFirst(html, MARKER, 0);
    assert |MARKER| > 0;
    hide Ascii, IndexFrom, ParseString, SkipWhite, CutLiteral, IsWhite;
  }
}
