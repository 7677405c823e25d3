/**
 * AUTO.RIA public cards: finding the embedded card objects of a page by their
 * marker, reading each one, and keeping the first valid card of every id.
 */
module PublicCards {
  import opened Maybe
  import opened CodeUnits
  import opened JsonScan
  import PublicScan

  // ----- the marker: "advertisementCard", a colon and an opening brace, with white space between

  const CARD_KEY: Text := Ascii("\"advertisementCard\"")

  /** The brace of the marker that starts at an index. */
  function MarkerBrace(html: Text, i: nat): (brace: Option<nat>)
    ensures brace.Some? ==> i + |CARD_KEY| < brace.value < |html|
  {
    if !StartsAt(html, CARD_KEY, i) then None
    else
      var colon := SkipWhite(html, i + |CARD_KEY|);
      if colon == |html| || html[colon] != COLON then None
      else
        var brace := SkipWhite(html, colon + 1);
        if brace == |html| || html[brace] != LEFT_BRACE then None else Some(brace)
  }

  function BraceOf(html: Text, i: nat): (brace: nat)
    requires MarkerAt(html, i)
    ensures i < brace < |html|
  {
    MarkerBrace(html, i).value
  }

  predicate MarkerAt(html: Text, i: nat) {
    MarkerBrace(html, i).Some?
  }

  /** Where a global search that resumes at an index finds its next match. */
  function NextMarker(html: Text, i: nat): (next: Option<nat>)
    ensures next.Some? ==> i <= next.value < |html| && MarkerAt(html, next.value)
    decreases |html| - i
  {
    if i >= |html| then None
    else if MarkerAt(html, i) then Some(i)
    else NextMarker(html, i + 1)
  }

  // ----- judging one object

  /** What JSON.parse returns; a number is kept as String shows it. */
  datatype Json =
    | Null
    | Bool(value: bool)
    | Number(shown: Text)
    | Str(text: Text)
    | Arr(items: seq<Json>)
    | Obj(members: map<Text, Json>)

  datatype Card = Card(id: Text, data: Json)

  /** Foreign: a widget from outside the query. */
  datatype Fate = Malformed | Foreign | Ad(card: Card)

  predicate IsObject(v: Json) {
    v.Arr? || v.Obj?
  }

  function Field(v: Json, name: string): (r: Option<Json>)
    requires forall i :: 0 <= i < |name| ==> name[i] as int < 0x80
  {
    if v.Obj? && Ascii(name) in v.members then Some(v.members[Ascii(name)]) else None
  }

  /** String(v). */
  function Shown(v: Json): (t: Text) {
    match v
    case Null => Ascii("null")
    case Bool(value) => if value then Ascii("true") else Ascii("false")
    case Number(shown) => shown
    case Str(text) => text
    case Arr(items) => Joined(items)
    case Obj(_) => Ascii("[object Object]")
  }

  function Joined(items: seq<Json>): (t: Text) {
    if items == [] then []
    else
      var head := if items[0].Null? then [] else Shown(items[0]);
      if |items| == 1 then head else head + [COMMA] + Joined(items[1..])
  }

  function IdText(id: Option<Json>): (t: Text) {
    if id.None? || id.value.Null? then [] else Shown(id.value)
  }

  predicate IsNumeric(t: Text) {
    t != [] && forall u :: u in t ==> IsDigit(u)
  }

  function Judge(parsed: Option<Json>): (fate: Fate) {
    if parsed.None? || !IsObject(parsed.value) then Malformed
    else
      var data := Field(parsed.value, "data");
      if data.None? || !IsObject(data.value) then Malformed
      else if Field(data.value, "type") != Some(Json.Str(Ascii("Auto"))) then Foreign
      else
        var card := data.value;
        var id, link, title := IdText(Field(card, "id")), Field(card, "link"), Field(card, "title");
        if !IsNumeric(id) || link.None? || !link.value.Str? || title.None? then Malformed
        else
          var content := Field(title.value, "content");
          if content.Some? && content.value.Str? then Ad(Card(id, card)) else Malformed
  }

  /** The fate of the marker at an index; `parse` is JSON.parse, None where it throws. */
  function FateAt(parse: Text -> Option<Json>, html: Text, i: nat): (fate: Fate)
    requires MarkerAt(html, i)
  {
    var brace := BraceOf(html, i);
    var json := ScanFrom(html, brace, brace, OUTSIDE);
    if json.None? then Malformed else Judge(parse(json.value))
  }

  /** The fates of all markers from an index on, wherever they start. */
  function Fates(parse: Text -> Option<Json>, html: Text, i: nat): (fates: seq<Fate>)
    decreases |html| - i
  {
    if i >= |html| then []
    else (if MarkerAt(html, i) then [FateAt(parse, html, i)] else []) + Fates(parse, html, i + 1)
  }

  /** The first card of each id. */
  function Cards(fates: seq<Fate>): (cards: seq<Card>) {
    if fates == [] then []
    else
      var before, fate := Cards(fates[..|fates| - 1]), fates[|fates| - 1];
      if fate.Ad? && fate.card.id !in Ids(before) then before + [fate.card] else before
  }

  function Ids(cards: seq<Card>): (ids: set<Text>) {
    set card | card in cards :: card.id
  }

  function CountMalformed(fates: seq<Fate>): (n: nat) {
    if fates == [] then 0
    else CountMalformed(fates[..|fates| - 1]) + if fates[|fates| - 1].Malformed? then 1 else 0
  }

  lemma FatesSnoc(fates: seq<Fate>, fate: Fate)
    ensures CountMalformed(fates + [fate]) == CountMalformed(fates) + if fate.Malformed? then 1 else 0
    ensures Cards(fates + [fate])
         == if fate.Ad? && fate.card.id !in Ids(Cards(fates)) then Cards(fates) + [fate.card] else Cards(fates)
  {
    assert (fates + [fate])[..|fates + [fate]| - 1] == fates;
  }

  lemma IdsSnoc(cards: seq<Card>, card: Card)
    ensures Ids(cards + [card]) == Ids(cards) + {card.id}
  {
  }

  lemma {:induction false} NothingBeforeNext(parse: Text -> Option<Json>, html: Text, i: nat)
    ensures Fates(parse, html, i) == Ahead(parse, html, NextMarker(html, i))
    decreases |html| - i
  {
    hide MarkerAt, FateAt;
    if i < |html| && !MarkerAt(html, i) {
      NothingBeforeNext(parse, html, i + 1);
    }
  }

  /** Matches never overlap: no marker starts inside another one, so resuming after a match misses none. */
  lemma MarkersAreDisjoint(html: Text, i: nat, j: nat)
    requires MarkerAt(html, i) && i < j <= BraceOf(html, i)
    ensures !MarkerAt(html, j)
  {
    NoKeyInside(html, i, j);
    if StartsAt(html, CARD_KEY, j) {
      KeyStarts(html, j);
      assert false;
    }
  }

  lemma KeyIs()
    ensures CARD_KEY == Ascii("\"advertisementCard\"")
    ensures |CARD_KEY| == 19 && CARD_KEY[0] == QUOTE && CARD_KEY[1] == 0x61
    ensures forall k :: 0 < k < 18 ==> CARD_KEY[k] != QUOTE
    ensures CARD_KEY[17] == 0x64 && CARD_KEY[18] == QUOTE
  {
  }

  lemma KeyStarts(html: Text, i: nat)
    requires StartsAt(html, CARD_KEY, i)
    ensures i + 19 <= |html| && html[i] == QUOTE && html[i + 1] == 0x61
  {
    KeyIs();
    assert html[i] == html[i..i + 19][0] && html[i + 1] == html[i..i + 19][1];
  }

  lemma NoKeyInside(html: Text, i: nat, j: nat)
    requires MarkerAt(html, i) && i < j <= BraceOf(html, i)
    ensures html[j] == QUOTE && j + 1 < |html| ==> html[j + 1] != 0x61
  {
    KeyIs();
    hide Ascii;
    var colon := SkipWhite(html, i + 19);
    SkippedIsWhite(html, i + 19);
    SkippedIsWhite(html, colon + 1);
    assert !IsWhite(QUOTE) && !IsWhite(0x61);
    if j < i + 19 {
      assert html[j] == html[i..i + 19][j - i] == CARD_KEY[j - i];
    }
  }

  lemma {:induction false} SkippedIsWhite(html: Text, pos: nat)
    requires pos <= |html|
    ensures forall k :: pos <= k < SkipWhite(html, pos) ==> IsWhite(html[k])
    decreases |html| - pos
  {
    if pos < |html| && IsWhite(html[pos]) {
      SkippedIsWhite(html, pos + 1);
    }
  }

  lemma {:induction false} ResumeMissesNothing(parse: Text -> Option<Json>, html: Text, i: nat, j: nat)
    requires MarkerAt(html, i) && i < j <= BraceOf(html, i) + 1
    ensures Fates(parse, html, i + 1) == Fates(parse, html, j)
    decreases j - i
  {
    if i + 1 < j {
      ResumeMissesNothing(parse, html, i, j - 1);
      MarkersAreDisjoint(html, i, j - 1);
    }
  }

  /** The fates from a search result on. */
  ghost function Ahead(parse: Text -> Option<Json>, html: Text, next: Option<nat>): (fates: seq<Fate>)
    requires next.Some? ==> MarkerAt(html, next.value)
  {
    if next.None? then [] else [FateAt(parse, html, next.value)] + Fates(parse, html, next.value + 1)
  }

  /** Searching on behind the brace of a match finds the fates that follow it. */
  lemma SearchResumes(parse: Text -> Option<Json>, html: Text, i: nat)
    requires MarkerAt(html, i)
    ensures Ahead(parse, html, Some(i))
         == [FateAt(parse, html, i)] + Ahead(parse, html, NextMarker(html, BraceOf(html, i) + 1))
  {
    var from := BraceOf(html, i) + 1;
    ResumeMissesNothing(parse, html, i, from);
    NothingBeforeNext(parse, html, from);
  }

  lemma NothingJudged()
    ensures Cards([]) == [] && CountMalformed([]) == 0 && Ids([]) == {}
  {
  }

  lemma NothingAhead(parse: Text -> Option<Json>, html: Text)
    ensures Ahead(parse, html, None) == []
  {
  }

  /** The body of the loop over matches, up to counting and keeping. */
  method JudgeMarker(parse: Text -> Option<Json>, html: Text, at: nat) returns (fate: Fate)
    requires MarkerAt(html, at)
    ensures fate == FateAt(parse, html, at)
  {
    hide Judge, ScanFrom;
    var json := ReadJsonObject(html, BraceOf(html, at));
    fate := if json.None? then Malformed else Judge(parse(json.value));
  }

  /** parseAutoRiaPublicCards. */
  method ParseAutoRiaPublicCards(parse: Text -> Option<Json>, html: Text) returns (cards: seq<Card>, malformed: nat)
    ensures cards == Cards(Fates(parse, html, 0)) && malformed == CountMalformed(Fates(parse, html, 0))
  {
    hide *;
    cards, malformed := [], 0;
    var ids: set<Text> := {};
    ghost var done: seq<Fate> := [];
    NothingJudged();
    NothingBeforeNext(parse, html, 0);
    var next := NextMarker(html, 0);
    assert done + Ahead(parse, html, next) == Ahead(parse, html, next);
    while next.Some?
      invariant next.Some? ==> next.value < |html| && MarkerAt(html, next.value)
      invariant Fates(parse, html, 0) == done + Ahead(parse, html, next)
      invariant cards == Cards(done) && malformed == CountMalformed(done) && ids == Ids(cards)
      decreases if next.None? then 0 else |html| - next.value
    {
      var fate := JudgeMarker(parse, html, next.value);
      FatesSnoc(done, fate);
      SearchResumes(parse, html, next.value);
      next := NextMarker(html, BraceOf(html, next.value) + 1);
      assert done + ([fate] + Ahead(parse, html, next)) == done + [fate] + Ahead(parse, html, next);
      done := done + [fate];
      if fate.Malformed? {
        malformed := malformed + 1;
        continue;
      }
      if fate.Foreign? || fate.card.id in ids {
        continue;
      }
      IdsSnoc(cards, fate.card);
      ids := ids + {fate.card.id};
      cards := cards + [fate.card];
    }
    NothingAhead(parse, html);
    assert done + [] == done;
  }

  // ----- what an object is, stated over what JSON.parse returns

  /** The object has a member of this name with this value. */
  predicate Has(v: Json, name: Text, w: Json) {
    v.Obj? && name in v.members && v.members[name] == w
  }

  /** The value stands for an id: the id as a number or a string, or a list of just such a value. */
  predicate Denotes(v: Json, id: Text) {
    v == Number(id) || v == Json.Str(id) || (v.Arr? && |v.items| == 1 && Denotes(v.items[0], id))
  }

  ghost predicate HasData(parsed: Option<Json>, data: Json) {
    parsed.Some? && Has(parsed.value, Ascii("data"), data) && (data.Arr? || data.Obj?)
  }

  predicate IsQueryCard(data: Json) {
    Has(data, Ascii("type"), Json.Str(Ascii("Auto")))
  }

  ghost predicate HasText(v: Json, name: Text) {
    exists text :: Has(v, name, Json.Str(text))
  }

  ghost predicate HasTitle(data: Json) {
    exists title :: Has(data, Ascii("title"), title) && HasText(title, Ascii("content"))
  }

  ghost predicate HasId(data: Json, id: Text) {
    && id != [] && (forall u :: u in id ==> 0x30 <= u <= 0x39)
    && exists v :: Has(data, Ascii("id"), v) && Denotes(v, id)
  }

  /** The parsed object is an advert of the query, complete with id, link and title. */
  ghost predicate Offers(parsed: Option<Json>, card: Card) {
    && HasData(parsed, card.data) && IsQueryCard(card.data)
    && HasId(card.data, card.id) && HasText(card.data, Ascii("link")) && HasTitle(card.data)
  }

  /** The parsed object belongs to a widget outside the query. */
  ghost predicate IsElsewhere(parsed: Option<Json>) {
    exists data :: HasData(parsed, data) && !IsQueryCard(data)
  }

  lemma {:induction false} ShownDenotes(v: Json, id: Text)
    requires id != [] && forall u :: u in id ==> 0x30 <= u <= 0x39
    ensures !v.Null? && Shown(v) == id <==> Denotes(v, id)
    decreases v
  {
    WordsAreNoDigits();
    match v {
      case Null =>
      case Bool(value) => assert id[0] in id;
      case Number(shown) =>
      case Str(text) =>
      case Obj(_) => assert id[0] in id;
      case Arr(items) =>
        if |items| == 1 {
          ShownDenotes(items[0], id);
        } else if |items| > 1 {
          JoinedHasComma(items);
        }
    }
  }

  lemma WordsAreNoDigits()
    ensures |Ascii("true")| == 4 && Ascii("true")[0] > 0x39 && |Ascii("false")| == 5 && Ascii("false")[0] > 0x39
    ensures |Ascii("[object Object]")| == 15 && Ascii("[object Object]")[0] > 0x39
  {
  }

  lemma JoinedHasComma(items: seq<Json>)
    requires |items| > 1
    ensures COMMA in Joined(items) && COMMA < 0x30
  {
    var head: Text := if items[0].Null? then [] else Shown(items[0]);
    assert Joined(items) == head + [COMMA] + Joined(items[1..]);
    assert (head + [COMMA] + Joined(items[1..]))[|head|] == COMMA;
  }

  lemma FieldMeans(v: Json, name: string, w: Json)
    requires forall i :: 0 <= i < |name| ==> name[i] as int < 0x80
    ensures Field(v, name) == Some(w) <==> Has(v, Ascii(name), w)
    ensures Field(v, name).None? <==> forall x :: !Has(v, Ascii(name), x)
  {
    if v.Obj? && Ascii(name) in v.members {
      assert Has(v, Ascii(name), v.members[Ascii(name)]);
    }
  }

  lemma IdMeans(data: Json, id: Text)
    ensures IsNumeric(IdText(Field(data, "id"))) && IdText(Field(data, "id")) == id <==> HasId(data, id)
  {
    var field := Field(data, "id");
    FieldMeans(data, "id", Null);
    if field.Some? {
      FieldMeans(data, "id", field.value);
      if id != [] && forall u :: u in id ==> 0x30 <= u <= 0x39 {
        ShownDenotes(field.value, id);
      }
    }
    hide Ascii, Shown;
  }

  lemma TextMeans(v: Json, name: string)
    requires forall i :: 0 <= i < |name| ==> name[i] as int < 0x80
    ensures Field(v, name).Some? && Field(v, name).value.Str? <==> HasText(v, Ascii(name))
  {
    var field := Field(v, name);
    FieldMeans(v, name, Null);
    if field.Some? {
      FieldMeans(v, name, field.value);
    }
    hide Ascii;
  }

  lemma TitleMeans(data: Json)
    ensures Field(data, "title").Some? && Field(Field(data, "title").value, "content").Some?
            && Field(Field(data, "title").value, "content").value.Str?
       <==> HasTitle(data)
  {
    var title := Field(data, "title");
    FieldMeans(data, "title", Null);
    if title.Some? {
      FieldMeans(data, "title", title.value);
      TextMeans(title.value, "content");
    }
    hide Ascii;
  }

  /** The judgement on an object, in terms of what the object holds. */
  lemma JudgeMeans(parsed: Option<Json>)
    ensures forall card :: Judge(parsed) == Ad(card) <==> Offers(parsed, card)
    ensures Judge(parsed) == Foreign <==> IsElsewhere(parsed)
    ensures Judge(parsed) == Malformed <==> !IsElsewhere(parsed) && forall card :: !Offers(parsed, card)
  {
    hide Ascii;
    DataMeans(parsed);
    var field := if parsed.Some? then Field(parsed.value, "data") else None;
    if field.Some? && IsObject(field.value) {
      var data := field.value;
      FieldMeans(data, "type", Json.Str(Ascii("Auto")));
      IdMeans(data, IdText(Field(data, "id")));
      forall id ensures HasId(data, id) ==> id == IdText(Field(data, "id")) {
        IdMeans(data, id);
      }
      TextMeans(data, "link");
      TitleMeans(data);
      hide Field, HasId, HasText, HasTitle, Has, IsNumeric, IdText;
      assert IsQueryCard(data) <==> Field(data, "type") == Some(Json.Str(Ascii("Auto")));
      assert Judge(parsed).Ad? ==> Offers(parsed, Judge(parsed).card);
    }
  }

  lemma DataMeans(parsed: Option<Json>)
    ensures forall data :: HasData(parsed, data) <==> parsed.Some? && Field(parsed.value, "data") == Some(data) && IsObject(data)
  {
    hide Ascii;
    if parsed.Some? {
      forall data ensures Field(parsed.value, "data") == Some(data) <==> Has(parsed.value, Ascii("data"), data) {
        FieldMeans(parsed.value, "data", data);
      }
    }
  }

  /** What JSON.parse makes of the object behind a marker; nothing when no whole object is there. */
  function ParsedAt(parse: Text -> Option<Json>, html: Text, k: nat): (parsed: Option<Json>)
    requires MarkerAt(html, k)
  {
    var text := ScanFrom(html, BraceOf(html, k), BraceOf(html, k), OUTSIDE);
    if text.Some? then parse(text.value) else None
  }

  lemma FateMeans(parse: Text -> Option<Json>, html: Text, k: nat)
    requires MarkerAt(html, k)
    ensures var fate, parsed := FateAt(parse, html, k), ParsedAt(parse, html, k);
            && (forall card :: fate == Ad(card) <==> Offers(parsed, card))
            && (fate == Foreign <==> IsElsewhere(parsed))
            && (fate == Malformed <==> !IsElsewhere(parsed) && forall card :: !Offers(parsed, card))
  {
    JudgeMeans(ParsedAt(parse, html, k));
    hide Judge, ScanFrom, Offers, IsElsewhere;
    assert FateAt(parse, html, k) == Judge(ParsedAt(parse, html, k)) by {
      NothingIsMalformed();
    }
  }

  lemma NothingIsMalformed()
    ensures Judge(None) == Malformed
  {
  }

  // ----- nothing on the page is dropped

  lemma {:induction false} EveryMarkerIsJudged(parse: Text -> Option<Json>, html: Text, i: nat)
    ensures forall k :: i <= k < |html| && MarkerAt(html, k) ==> FateAt(parse, html, k) in Fates(parse, html, i)
    ensures forall fate :: fate in Fates(parse, html, i) ==> exists k :: i <= k < |html| && MarkerAt(html, k) && FateAt(parse, html, k) == fate
    decreases |html| - i
  {
    hide MarkerAt, FateAt;
    if i < |html| {
      EveryMarkerIsJudged(parse, html, i + 1);
    }
  }

  predicate IsFirst(fates: seq<Fate>, k: nat)
    requires k < |fates|
  {
    fates[k].Ad? && forall j :: 0 <= j < k && fates[j].Ad? ==> fates[j].card.id != fates[k].card.id
  }

  /** One card per id, and always the first valid one. */
  lemma {:induction false} CardsAreFirsts(fates: seq<Fate>)
    ensures forall i, j :: 0 <= i < j < |Cards(fates)| ==> Cards(fates)[i].id != Cards(fates)[j].id
    ensures forall card :: card in Cards(fates) <==> exists k :: 0 <= k < |fates| && IsFirst(fates, k) && fates[k].card == card
    ensures forall k :: 0 <= k < |fates| && fates[k].Ad? ==> fates[k].card.id in Ids(Cards(fates))
  {
    if fates != [] {
      hide Cards, CountMalformed;
      var n := |fates| - 1;
      var before := fates[..n];
      assert fates == before + [fates[n]];
      FatesSnoc(before, fates[n]);
      CardsAreFirsts(before);
      FirstsOfPrefix(fates);
      assert forall card :: card in Cards(before) ==> card.id in Ids(Cards(before));
    } else {
      NothingJudged();
    }
  }

  lemma FirstsOfPrefix(fates: seq<Fate>)
    requires fates != []
    ensures var n := |fates| - 1;
            && (forall k :: 0 <= k < n ==> (IsFirst(fates, k) <==> IsFirst(fates[..n], k)))
            && (IsFirst(fates, n) <==> fates[n].Ad? && forall j :: 0 <= j < n && fates[j].Ad? ==> fates[j].card.id != fates[n].card.id)
  {
  }

  lemma {:induction false} CountsMalformed(fates: seq<Fate>)
    ensures CountMalformed(fates) == 0 <==> Malformed !in fates
  {
    if fates != [] {
      CountsMalformed(fates[..|fates| - 1]);
      assert fates == fates[..|fates| - 1] + [fates[|fates| - 1]];
    }
  }

  /** Some marker of the page carries a complete advert of the query with this id. */
  ghost predicate IsOffered(parse: Text -> Option<Json>, html: Text, id: Text) {
    exists k, card :: OffersAt(parse, html, k, card) && card.id == id
  }

  ghost predicate OffersAt(parse: Text -> Option<Json>, html: Text, k: int, card: Card) {
    0 <= k < |html| && MarkerAt(html, k) && Offers(ParsedAt(parse, html, k), card)
  }

  /** The object behind the marker is a complete advert of the query or belongs to a widget outside it. */
  ghost predicate IsSound(parse: Text -> Option<Json>, html: Text, k: nat)
    requires MarkerAt(html, k)
  {
    IsElsewhere(ParsedAt(parse, html, k)) || exists card :: Offers(ParsedAt(parse, html, k), card)
  }

  /**
   * The parser's answer accounts for every marker on the page: an id is kept
   * exactly when some marker carries a complete advert of the query with it, no id
   * is kept twice, and nothing is reported malformed exactly when every marker has
   * such an advert or a widget from outside the query behind it.
   */
  lemma EveryMarkerIsAccounted(parse: Text -> Option<Json>, html: Text)
    ensures var cards := Cards(Fates(parse, html, 0));
            && (forall i, j :: 0 <= i < j < |cards| ==> cards[i].id != cards[j].id)
            && (forall id :: id in Ids(cards) <==> IsOffered(parse, html, id))
    ensures CountMalformed(Fates(parse, html, 0)) == 0
       <==> forall k :: 0 <= k < |html| && MarkerAt(html, k) ==> IsSound(parse, html, k)
  {
    hide *;
    var fates := Fates(parse, html, 0);
    var cards := Cards(fates);
    CardsAreFirsts(fates);
    CountsMalformed(fates);
    MarkersMean(parse, html);
    IdsAre(cards);
    forall id ensures id in Ids(cards) <==> IsOffered(parse, html, id) {
      KeptIsOffered(parse, html, id);
    }
  }

  lemma IdsAre(cards: seq<Card>)
    ensures forall id :: id in Ids(cards) <==> exists card :: card in cards && card.id == id
  {
  }

  lemma MarkersMean(parse: Text -> Option<Json>, html: Text)
    ensures Malformed !in Fates(parse, html, 0) <==> forall k :: 0 <= k < |html| && MarkerAt(html, k) ==> IsSound(parse, html, k)
    ensures forall card :: Ad(card) in Fates(parse, html, 0) <==> exists k :: OffersAt(parse, html, k, card)
  {
    EveryMarkerIsJudged(parse, html, 0);
    forall k | 0 <= k < |html| && MarkerAt(html, k)
      ensures IsSound(parse, html, k) <==> FateAt(parse, html, k) != Malformed
      ensures forall card :: FateAt(parse, html, k) == Ad(card) <==> OffersAt(parse, html, k, card)
    {
      FateMeans(parse, html, k);
    }
    hide MarkerAt, FateAt, Fates, IsSound, Offers, IsElsewhere, ParsedAt;
    forall card ensures Ad(card) in Fates(parse, html, 0) <==> exists k :: OffersAt(parse, html, k, card) {
      if Ad(card) in Fates(parse, html, 0) {
        var k :| 0 <= k < |html| && MarkerAt(html, k) && FateAt(parse, html, k) == Ad(card);
        assert OffersAt(parse, html, k, card);
      }
      if k :| OffersAt(parse, html, k, card) {
        assert FateAt(parse, html, k) == Ad(card);
      }
    }
  }

  lemma KeptIsOffered(parse: Text -> Option<Json>, html: Text, id: Text)
    ensures id in Ids(Cards(Fates(parse, html, 0))) <==> IsOffered(parse, html, id)
  {
    hide *;
    var fates := Fates(parse, html, 0);
    MarkersMean(parse, html);
    IdsOfCards(fates);
    OfferedIs(parse, html, id);
    if k, card :| OffersAt(parse, html, k, card) && card.id == id {
      assert Ad(card) in fates;
    }
  }

  lemma OfferedIs(parse: Text -> Option<Json>, html: Text, id: Text)
    ensures IsOffered(parse, html, id) <==> exists k, card :: OffersAt(parse, html, k, card) && card.id == id
  {
    hide OffersAt;
  }

  /** The kept ids are those of all cards. */
  lemma IdsOfCards(fates: seq<Fate>)
    ensures forall id :: id in Ids(Cards(fates)) <==> exists card :: Ad(card) in fates && card.id == id
  {
    CardsAreFirsts(fates);
    hide Cards;
    forall id | id in Ids(Cards(fates)) ensures exists card :: Ad(card) in fates && card.id == id {
      var card :| card in Cards(fates) && card.id == id;
      var n :| 0 <= n < |fates| && IsFirst(fates, n) && fates[n].card == card;
      assert fates[n] in fates;
    }
    forall card | Ad(card) in fates ensures card.id in Ids(Cards(fates)) {
      var n :| 0 <= n < |fates| && fates[n] == Ad(card);
      assert fates[n].Ad?;
    }
  }

  /** A page as the ingestion sees it; `listable` says which cards normalizePublicCard accepts. */
  function ParsedPage(parse: Text -> Option<Json>, listable: Card -> bool, html: Text): (page: PublicScan.Parsed) {
    var fates := Fates(parse, html, 0);
    var cards := Cards(fates);
    PublicScan.Parsed(
      seq(|cards|, i requires 0 <= i < |cards| => PublicScan.Card(cards[i].id, listable(cards[i]))), CountMalformed(fates))
  }

  lemma PageIds(parse: Text -> Option<Json>, listable: Card -> bool, html: Text)
    ensures var page, ids := ParsedPage(parse, listable, html), Ids(Cards(Fates(parse, html, 0)));
            && (forall card :: card in page.cards ==> card.id in ids)
            && (forall id :: id in ids ==> exists card :: card in page.cards && card.id == id)
  {
    hide Fates, Cards, CountMalformed;
    var page, cards := ParsedPage(parse, listable, html), Cards(Fates(parse, html, 0));
    forall id | id in Ids(cards) ensures exists card :: card in page.cards && card.id == id {
      var k :| 0 <= k < |cards| && cards[k].id == id;
      assert page.cards[k] in page.cards && page.cards[k].id == id;
    }
  }

  /**
   * From page source to scan result: an ingested page is reported complete
   * exactly when each of its markers has a widget from outside the query behind it
   * or a complete advert whose id is known or listed.
   */
  lemma CompleteMeansEveryMarker(
      parse: Text -> Option<Json>, listable: Card -> bool, html: Text, cfg: PublicScan.Config, pages: seq<PublicScan.Parsed>)
    requires ParsedPage(parse, listable, html) in pages
    ensures var s := PublicScan.Ingested(cfg, pages);
            PublicScan.Complete(s, ParsedPage(parse, listable, html))
            <==> && (forall k :: 0 <= k < |html| && MarkerAt(html, k) ==> IsSound(parse, html, k))
                 && (forall k, card :: OffersAt(parse, html, k, card) ==>
                       card.id in cfg.known || card.id in PublicScan.ListedIds(s.listings))
  {
    var page := ParsedPage(parse, listable, html);
    var cards := Cards(Fates(parse, html, 0));
    PublicScan.CompleteMeansAccounted(cfg, pages, page);
    EveryMarkerIsAccounted(parse, html);
    PageIds(parse, listable, html);
    hide MarkerAt, Fates, Cards, CountMalformed, IsSound, OffersAt, PublicScan.ListedIds, PublicScan.Complete, PublicScan.Ingested;
    forall k, card | OffersAt(parse, html, k, card) ensures card.id in Ids(cards) {
      assert IsOffered(parse, html, card.id);
    }
    forall card | card in page.cards ensures exists k, c :: OffersAt(parse, html, k, c) && c.id == card.id {
      assert card.id in Ids(cards) && IsOffered(parse, html, card.id);
    }
  }

  // ----- printed pages

  /** Page source up to and including one card object. */
  datatype Section = Section(gap: Text, beforeColon: Text, afterColon: Text, objectGap: Text, members: Members)

  predicate ValidSection(s: Section) {
    && (forall u :: u in s.beforeColon ==> u in WHITE_SPACE) && (forall u :: u in s.afterColon ==> u in WHITE_SPACE)
    && IsSpace(s.objectGap) && ValidMembers(s.members)
  }

  function PrintObject(s: Section): (t: Text) {
    Print(Value.Obj(s.objectGap, s.members))
  }

  function PrintPage(sections: seq<Section>, tail: Text): (html: Text) {
    if sections == [] then tail
    else sections[0].gap + SectionText(sections[0], PrintPage(sections[1..], tail))
  }

  /** From a section's marker on. */
  function SectionText(s: Section, after: Text): (html: Text) {
    Ascii("\"advertisementCard\"") + (s.beforeColon + ([COLON] + (s.afterColon + (PrintObject(s) + after))))
  }

  function SectionLength(s: Section): (n: nat) {
    |s.gap| + |CARD_KEY| + |s.beforeColon| + 1 + |s.afterColon| + |PrintObject(s)|
  }

  /** Where the sections' own markers start. */
  function MarkerStarts(sections: seq<Section>, at: nat): (starts: set<nat>) {
    if sections == [] then {}
    else {at + |sections[0].gap|} + MarkerStarts(sections[1..], at + SectionLength(sections[0]))
  }

  function SectionFate(parse: Text -> Option<Json>, s: Section): (fate: Fate) {
    if |PrintObject(s)| <= MAX_OBJECT then Judge(parse(PrintObject(s))) else Malformed
  }

  function SectionFates(parse: Text -> Option<Json>, sections: seq<Section>): (fates: seq<Fate>) {
    seq(|sections|, i requires 0 <= i < |sections| => SectionFate(parse, sections[i]))
  }

  lemma {:induction false} NoMarkerNoFate(parse: Text -> Option<Json>, html: Text, i: nat, j: nat)
    requires i <= j <= |html| && forall k :: i <= k < j ==> !MarkerAt(html, k)
    ensures Fates(parse, html, i) == Fates(parse, html, j)
    decreases j - i
  {
    hide MarkerAt, FateAt;
    if i < j {
      NoMarkerNoFate(parse, html, i + 1, j);
    }
  }

  lemma {:induction false} StartsAreAhead(sections: seq<Section>, at: nat)
    ensures forall k :: k in MarkerStarts(sections, at) ==> at <= k
  {
    if sections != [] {
      StartsAreAhead(sections[1..], at + SectionLength(sections[0]));
    }
  }

  /** White space between two parts of a page is skipped exactly. */
  lemma SkipPast(html: Text, pos: nat, white: Text, rest: Text)
    requires pos <= |html| && html[pos..] == white + rest && rest != [] && !IsWhite(rest[0])
    requires forall u :: u in white ==> IsWhite(u)
    ensures pos + |white| < |html| && SkipWhite(html, pos) == pos + |white|
    ensures html[pos + |white|] == rest[0] && html[pos + |white| + 1..] == rest[1..]
  {
    hide IsWhite, SkipWhite;
    var end := pos + |white|;
    assert html[end] == html[pos..][|white|] == rest[0];
    forall i | pos <= i < end ensures IsWhite(html[i]) {
      assert html[i] == html[pos..][i - pos] == white[i - pos];
    }
    assert html[end + 1..] == html[pos..][|white| + 1..] == rest[1..];
    WhiteIsSkipped(html, pos, end);
  }

  lemma PunctuationIsNotWhite()
    ensures !IsWhite(COLON) && !IsWhite(LEFT_BRACE)
  {
  }

  lemma MarkerIsFound(html: Text, i: nat, beforeColon: Text, afterColon: Text, rest: Text)
    requires i <= |html| && html[i..] == CARD_KEY + (beforeColon + ([COLON] + (afterColon + rest)))
    requires (forall u :: u in beforeColon ==> IsWhite(u)) && (forall u :: u in afterColon ==> IsWhite(u))
    requires rest != [] && rest[0] == LEFT_BRACE
    ensures MarkerBrace(html, i) == Some(i + |CARD_KEY| + |beforeColon| + 1 + |afterColon|)
  {
    KeyIs();
    hide Ascii, IsWhite, SkipWhite;
    PunctuationIsNotWhite();
    var third := [COLON] + (afterColon + rest);
    assert html[i..i + 19] == html[i..][..19] == CARD_KEY;
    assert html[i + 19..] == html[i..][19..] == beforeColon + third;
    SkipPast(html, i + 19, beforeColon, third);
    assert third[1..] == afterColon + rest;
    SkipPast(html, i + 20 + |beforeColon|, afterColon, rest);
  }

  /** The marker of a section is found, and the object behind it is cut out whole. */
  lemma SectionIsRead(parse: Text -> Option<Json>, html: Text, at: nat, s: Section, after: Text)
    requires ValidSection(s) && at <= |html| && html[at..] == SectionText(s, after)
    ensures MarkerAt(html, at) && FateAt(parse, html, at) == SectionFate(parse, s)
  {
    var brace := at + |CARD_KEY| + |s.beforeColon| + 1 + |s.afterColon|;
    hide Ascii, Print, ScanFrom, Judge, MarkerBrace, SectionText;
    MarkerReaches(html, at, s, after);
    var front, text := html[..brace], PrintObject(s);
    PrintedObjectIsCutOut(s.objectGap, s.members, front, after);
    assert html == front + text + after by {
      assert html == front + html[brace..];
      assert front + (text + after) == front + text + after;
    }
  }

  lemma MarkerReaches(html: Text, at: nat, s: Section, after: Text)
    requires ValidSection(s) && at <= |html| && html[at..] == SectionText(s, after)
    ensures var brace := at + |CARD_KEY| + |s.beforeColon| + 1 + |s.afterColon|;
            MarkerBrace(html, at) == Some(brace) && html[brace..] == PrintObject(s) + after
  {
    assert PrintObject(s)[0] == LEFT_BRACE;
    WhiteIsWhiteSpace();
    hide Ascii, Print, IsWhite, ValidMembers, MarkerBrace;
    MarkerIsFound(html, at, s.beforeColon, s.afterColon, PrintObject(s) + after);
    SectionSplits(s, after);
    var offset := |CARD_KEY| + |s.beforeColon| + 1 + |s.afterColon|;
    assert html[at + offset..] == html[at..][offset..];
  }

  lemma SectionSplits(s: Section, after: Text)
    ensures SectionText(s, after)[|CARD_KEY| + |s.beforeColon| + 1 + |s.afterColon|..] == PrintObject(s) + after
    ensures |s.gap| + |SectionText(s, after)| == SectionLength(s) + |after|
    ensures SectionText(s, after)[SectionLength(s) - |s.gap|..] == after
  {
    hide Ascii, Print;
  }

  /** A stretch of a page with a single marker contributes its fate. */
  lemma OneFate(parse: Text -> Option<Json>, html: Text, i: nat, at: nat, next: nat)
    requires i <= at < next <= |html| && MarkerAt(html, at)
    requires forall k :: i <= k < next && k != at ==> !MarkerAt(html, k)
    ensures Fates(parse, html, i) == [FateAt(parse, html, at)] + Fates(parse, html, next)
  {
    NoMarkerNoFate(parse, html, i, at);
    NoMarkerNoFate(parse, html, at + 1, next);
    hide MarkerAt, FateAt;
  }

  lemma StartsStep(sections: seq<Section>, at: nat)
    requires sections != []
    ensures MarkerStarts(sections, at)
         == {at + |sections[0].gap|} + MarkerStarts(sections[1..], at + SectionLength(sections[0]))
  {
  }

  lemma FatesStep(parse: Text -> Option<Json>, sections: seq<Section>)
    requires sections != []
    ensures SectionFates(parse, sections) == [SectionFate(parse, sections[0])] + SectionFates(parse, sections[1..])
  {
  }

  lemma PageStep(sections: seq<Section>, tail: Text)
    requires sections != []
    ensures PrintPage(sections, tail) == sections[0].gap + SectionText(sections[0], PrintPage(sections[1..], tail))
  {
  }

  lemma NothingPrinted(parse: Text -> Option<Json>, html: Text, i: nat, tail: Text)
    requires i <= |html| && forall k :: i <= k < |html| && MarkerAt(html, k) ==> k in MarkerStarts([], i)
    ensures Fates(parse, html, i) == SectionFates(parse, [])
  {
    NoMarkerNoFate(parse, html, i, |html|);
  }

  lemma {:induction false} PrintedRest(parse: Text -> Option<Json>, html: Text, i: nat, sections: seq<Section>, tail: Text)
    requires i <= |html| && html[i..] == PrintPage(sections, tail)
    requires forall s :: s in sections ==> ValidSection(s)
    requires forall k :: i <= k < |html| && MarkerAt(html, k) ==> k in MarkerStarts(sections, i)
    ensures Fates(parse, html, i) == SectionFates(parse, sections)
    decreases |sections|
  {
    hide *;
    if sections == [] {
      NothingPrinted(parse, html, i, tail);
    } else {
      var s, others := sections[0], PrintPage(sections[1..], tail);
      var at, next := i + |s.gap|, i + SectionLength(s);
      PageStep(sections, tail);
      PageSplits(html, i, s, others);
      StartsAreAhead(sections[1..], next);
      StartsStep(sections, i);
      SectionIsRead(parse, html, at, s, others);
      OneFate(parse, html, i, at, next);
      PrintedRest(parse, html, next, sections[1..], tail);
      FatesStep(parse, sections);
    }
  }

  lemma PageSplits(html: Text, i: nat, s: Section, after: Text)
    requires i <= |html| && html[i..] == s.gap + SectionText(s, after)
    ensures i + |s.gap| < i + SectionLength(s) <= |html|
    ensures html[i + |s.gap|..] == SectionText(s, after) && html[i + SectionLength(s)..] == after
  {
    hide Ascii, Print, SectionText;
    KeyIs();
    SectionSplits(s, after);
    var at := i + |s.gap|;
    assert html[at..] == html[i..][|s.gap|..] == SectionText(s, after);
    assert html[i + SectionLength(s)..] == html[at..][SectionLength(s) - |s.gap|..];
  }

  /**
   * For every page of card objects, whatever their contents, layout and
   * surroundings: when the page holds no marker but theirs, the fates are those of the
   * printed objects, in order, and an object over 128 KiB is malformed.
   */
  lemma PrintedPageIsRead(parse: Text -> Option<Json>, sections: seq<Section>, tail: Text)
    requires forall s :: s in sections ==> ValidSection(s)
    requires var html := PrintPage(sections, tail);
             forall k :: 0 <= k < |html| && MarkerAt(html, k) ==> k in MarkerStarts(sections, 0)
    ensures Fates(parse, PrintPage(sections, tail), 0) == SectionFates(parse, sections)
  {
    PrintedRest(parse, PrintPage(sections, tail), 0, sections, tail);
  }

  /** What JSON.parse makes of a printed section; nothing when the object is over the bound. */
  function Parsed(parse: Text -> Option<Json>, s: Section): (parsed: Option<Json>) {
    if |PrintObject(s)| <= 128 * 1024 then parse(PrintObject(s)) else None
  }

  /** The section is the first to offer this id. */
  ghost predicate IsKept(parse: Text -> Option<Json>, sections: seq<Section>, k: nat, card: Card)
    requires k < |sections|
  {
    && Offers(Parsed(parse, sections[k]), card)
    && forall j, c :: 0 <= j < k && Offers(Parsed(parse, sections[j]), c) ==> c.id != card.id
  }

  ghost function KeptCards(parse: Text -> Option<Json>, sections: seq<Section>): (cards: seq<Card>) {
    if sections == [] then []
    else
      var n := |sections| - 1;
      KeptCards(parse, sections[..n])
      + if exists card :: IsKept(parse, sections, n, card) then (var card :| IsKept(parse, sections, n, card); [card]) else []
  }
  /** The sections whose object is missing a part, is over the bound or does not parse. */
  ghost function BrokenSections(parse: Text -> Option<Json>, sections: seq<Section>): (n: nat) {
    if sections == [] then 0
    else
      var parsed := Parsed(parse, sections[|sections| - 1]);
      BrokenSections(parse, sections[..|sections| - 1])
      + if IsElsewhere(parsed) || exists card :: Offers(parsed, card) then 0 else 1
  }

  lemma SectionFateMeans(parse: Text -> Option<Json>, s: Section)
    ensures var fate, parsed := SectionFate(parse, s), Parsed(parse, s);
            && (forall card :: fate == Ad(card) <==> Offers(parsed, card))
            && (fate == Malformed <==> !IsElsewhere(parsed) && forall card :: !Offers(parsed, card))
  {
    NothingIsMalformed();
    JudgeMeans(Parsed(parse, s));
    assert MAX_OBJECT == 128 * 1024;
    hide Judge, PrintObject, Offers, IsElsewhere;
  }

  lemma {:induction false} SectionsAreJudged(parse: Text -> Option<Json>, sections: seq<Section>)
    ensures Cards(SectionFates(parse, sections)) == KeptCards(parse, sections)
    ensures CountMalformed(SectionFates(parse, sections)) == BrokenSections(parse, sections)
  {
    hide *;
    if sections == [] {
      NothingKept(parse);
    } else {
      var n := |sections| - 1;
      var before, fate := SectionFates(parse, sections[..n]), SectionFate(parse, sections[n]);
      SectionsAreJudged(parse, sections[..n]);
      FatesEnd(parse, sections);
      FatesSnoc(before, fate);
      SectionFateMeans(parse, sections[n]);
      KeptStep(parse, sections);
      FirstOffer(parse, sections);
      assert Cards(before) + [] == Cards(before);
    }
  }

  lemma NothingKept(parse: Text -> Option<Json>)
    ensures Cards(SectionFates(parse, [])) == [] == KeptCards(parse, [])
    ensures CountMalformed(SectionFates(parse, [])) == 0 == BrokenSections(parse, [])
  {
  }

  lemma FatesEnd(parse: Text -> Option<Json>, sections: seq<Section>)
    requires sections != []
    ensures var n := |sections| - 1;
            SectionFates(parse, sections) == SectionFates(parse, sections[..n]) + [SectionFate(parse, sections[n])]
  {
    hide SectionFate;
  }

  lemma KeptStep(parse: Text -> Option<Json>, sections: seq<Section>)
    requires sections != []
    ensures var n := |sections| - 1;
            && (forall card :: IsKept(parse, sections, n, card) ==> KeptCards(parse, sections) == KeptCards(parse, sections[..n]) + [card])
            && ((forall card :: !IsKept(parse, sections, n, card)) ==> KeptCards(parse, sections) == KeptCards(parse, sections[..n]))
            && BrokenSections(parse, sections)
               == BrokenSections(parse, sections[..n])
                  + if IsElsewhere(Parsed(parse, sections[n])) || exists card :: Offers(Parsed(parse, sections[n]), card) then 0 else 1
  {
    var n := |sections| - 1;
    SectionFateMeans(parse, sections[n]);
    hide Offers, Parsed, IsElsewhere, SectionFate;
    assert forall a, b :: IsKept(parse, sections, n, a) && IsKept(parse, sections, n, b) ==> a == b;
  }

  /** The card of the last section is kept exactly when its id is not among those kept before. */
  lemma FirstOffer(parse: Text -> Option<Json>, sections: seq<Section>)
    requires sections != []
    ensures var n := |sections| - 1;
            forall card :: IsKept(parse, sections, n, card)
              <==> SectionFate(parse, sections[n]) == Ad(card) && card.id !in Ids(Cards(SectionFates(parse, sections[..n])))
  {
    var n := |sections| - 1;
    var before := SectionFates(parse, sections[..n]);
    SectionFateMeans(parse, sections[n]);
    IdsOfCards(before);
    forall j, c | 0 <= j < n ensures Offers(Parsed(parse, sections[j]), c) <==> before[j] == Ad(c) {
      SectionFateMeans(parse, sections[j]);
    }
    hide Offers, Parsed, SectionFate, Cards, Ids;
    forall card ensures Ad(card) in before <==> exists j :: 0 <= j < n && Offers(Parsed(parse, sections[j]), card) {
      if Ad(card) in before {
        var j :| 0 <= j < n && before[j] == Ad(card);
        assert Offers(Parsed(parse, sections[j]), card);
      }
    }
  }

  /**
   * For every page of printed card objects, whatever their contents, layout and
   * surroundings, that holds no marker but theirs: the parser keeps, in order, the
   * first complete advert of the query for each id, and counts as malformed the
   * objects that are neither that nor from outside the query.
   */
  lemma PrintedPageIsKept(parse: Text -> Option<Json>, sections: seq<Section>, tail: Text)
    requires forall s :: s in sections ==> ValidSection(s)
    requires var html := PrintPage(sections, tail);
             forall k :: 0 <= k < |html| && MarkerAt(html, k) ==> k in MarkerStarts(sections, 0)
    ensures var fates := Fates(parse, PrintPage(sections, tail), 0);
            Cards(fates) == KeptCards(parse, sections) && CountMalformed(fates) == BrokenSections(parse, sections)
  {
    PrintedPageIsRead(parse, sections, tail);
    SectionsAreJudged(parse, sections);
  }

  // ----- adverts cannot forge markers

  lemma {:induction false} QuotesAreEscaped(ps: seq<Piece>, k: nat)
    requires ValidPieces(ps) && k < |PrintPieces(ps)| && PrintPieces(ps)[k] == QUOTE
    ensures k > 0 && PrintPieces(ps)[k - 1] == BACKSLASH
  {
    var first, n := PrintPiece(ps[0]), |PrintPiece(ps[0])|;
    assert ValidPiece(ps[0]);
    if k >= n {
      assert PrintPieces(ps)[k] == PrintPieces(ps[1..])[k - n];
      QuotesAreEscaped(ps[1..], k - n);
    } else {
      assert PrintPieces(ps)[k] == first[k];
    }
  }

  lemma {:induction false} SkipIsLocal(before: Text, after: Text, pos: nat)
    requires pos <= |after|
    ensures SkipWhite(before + after, |before| + pos) == |before| + SkipWhite(after, pos)
    decreases |after| - pos
  {
    hide IsWhite;
    if pos < |after| {
      SkipIsLocal(before, after, pos + 1);
    }
  }

  /**
   * A string value holds no marker, whatever text was put into it: no marker
   * starts within a printed literal that is not a member's key.
   */
  lemma StringsForgeNoMarker(before: Text, ps: seq<Piece>, after: Text, k: nat)
    requires ValidPieces(ps) && |before| <= k < |before| + |PrintString(ps)|
    requires after != [] ==> after[0] != 0x61
    requires SkipWhite(after, 0) < |after| ==> after[SkipWhite(after, 0)] != COLON
    ensures !MarkerAt(before + (PrintString(ps) + after), k)
  {
    var html := before + (PrintString(ps) + after);
    var close := |before| + |PrintString(ps)| - 1;
    hide Ascii, PrintString, IsWhite, SkipWhite, StartsAt;
    if StartsAt(html, CARD_KEY, k) {
      if k == close {
        KeyStarts(html, k);
        assert false;
      }
      KeyEndsLiteral(before, ps, after, k);
      SkipIsLocal(before + PrintString(ps), after, 0);
      KeyIs();
      assert html == (before + PrintString(ps)) + after;
    }
  }

  /** The key occurs in a literal only at its end: quotes inside are escaped. */
  lemma KeyEndsLiteral(before: Text, ps: seq<Piece>, after: Text, k: nat)
    requires ValidPieces(ps) && |before| <= k < |before| + |PrintString(ps)| - 1
    requires StartsAt(before + (PrintString(ps) + after), CARD_KEY, k)
    ensures k + 19 == |before| + |PrintString(ps)|
  {
    var html := before + (PrintString(ps) + after);
    var literal := PrintString(ps);
    var body := PrintPieces(ps);
    var close := |before| + |literal| - 1;
    KeyIs();
    hide Ascii, PrintPieces;
    assert forall i :: 0 <= i < 19 ==> html[k + i] == html[k..k + 19][i] == CARD_KEY[i];
    assert html[close] == QUOTE;
    if k + 18 < close {
      var last := k + 18 - |before| - 1;
      assert html[k + 18] == literal[last + 1] == body[last];
      assert html[k + 17] == literal[last] == body[last - 1];
      QuotesAreEscaped(ps, last);
      assert false;
    }
  }
}
