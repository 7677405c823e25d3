/**
 * AUTO.RIA public page ingestion: pages of one scan share the sets of observed
 * and classified ids and the list of listings, and may be in flight together.
 */
module PublicScan {
  import opened Ordering
  import opened CodeUnits

  /** A parsed card; `listable` says whether normalizePublicCard accepts it. */
  datatype Card = Card(id: Text, listable: bool)

  datatype Parsed = Parsed(cards: seq<Card>, malformed: nat)

  /** `recovery` is the catch-up of a pending backfill, which lists without a per-pass budget. */
  datatype Config = Config(known: set<Text>, maxCandidates: nat, recovery: bool)

  datatype Scan = Scan(observed: set<Text>, classified: set<Text>, listings: seq<Card>, handedOff: seq<Card>)

  const START := Scan({}, {}, [], [])

  function Take(cfg: Config, s: Scan, card: Card): (t: Scan) {
    if card.id in s.observed then s
    else
      var seen := s.(observed := s.observed + {card.id});
      if card.id in cfg.known then seen.(classified := s.classified + {card.id})
      else if !cfg.recovery && |s.listings| >= cfg.maxCandidates then seen
      else if !card.listable then seen
      else seen.(classified := s.classified + {card.id}, listings := s.listings + [card])
  }

  function TakeAll(cfg: Config, s: Scan, cards: seq<Card>): (t: Scan) {
    if cards == [] then s else Take(cfg, TakeAll(cfg, s, cards[..|cards| - 1]), cards[|cards| - 1])
  }

  /** Everything a page does between its response and its next await: classify its cards and hand off what it listed. */
  function Ingest(cfg: Config, s: Scan, page: Parsed): (t: Scan)
    requires |s.listings| <= |TakeAll(cfg, s, page.cards).listings|
  {
    var t := TakeAll(cfg, s, page.cards);
    t.(handedOff := s.handedOff + t.listings[|s.listings|..])
  }

  /** The answer a page gives once its handoff is durable; other pages may have been ingested meanwhile. */
  predicate Complete(s: Scan, page: Parsed) {
    page.malformed == 0 && forall card :: card in page.cards ==> card.id in s.classified
  }

  lemma {:induction false} TakeAllExtends(cfg: Config, s: Scan, cards: seq<Card>)
    ensures var t := TakeAll(cfg, s, cards);
            && |s.listings| <= |t.listings| && t.listings[..|s.listings|] == s.listings
            && s.observed <= t.observed && s.classified <= t.classified && t.handedOff == s.handedOff
            && (forall card :: card in cards ==> card.id in t.observed)
  {
    if cards != [] {
      TakeAllExtends(cfg, s, cards[..|cards| - 1]);
      assert cards == cards[..|cards| - 1] + [cards[|cards| - 1]];
    }
  }

  /** The collections shared by the closures of one scan. */
  class PublicCollector {
    const cfg: Config
    var observedIds: set<Text>
    var classifiedIds: set<Text>
    var listings: seq<Card>
    var handedOff: seq<Card>

    ghost function View(): (s: Scan)
      reads this
    {
      Scan(observedIds, classifiedIds, listings, handedOff)
    }

    constructor (cfg: Config)
      ensures this.cfg == cfg && View() == START
    {
      this.cfg := cfg;
      observedIds, classifiedIds, listings, handedOff := {}, {}, [], [];
    }

    /** ingestSearchPage, up to the handoff of its candidates. */
    method IngestSearchPage(page: Parsed)
      modifies this
      ensures |old(listings)| <= |TakeAll(cfg, old(View()), page.cards).listings|
      ensures View() == Ingest(cfg, old(View()), page)
    {
      ghost var before := View();
      var candidates: seq<Card> := [];
      assert page.cards[..0] == [];
      for i := 0 to |page.cards|
        invariant View() == TakeAll(cfg, before, page.cards[..i])
        invariant listings == before.listings + candidates
      {
        var card := page.cards[i];
        assert page.cards[..i + 1][..i] == page.cards[..i];
        if card.id in observedIds {
          continue;
        }
        observedIds := observedIds + {card.id};
        if card.id in cfg.known {
          classifiedIds := classifiedIds + {card.id};
          continue;
        }
        if !cfg.recovery && |listings| >= cfg.maxCandidates {
          continue;
        }
        if !card.listable {
          continue;
        }
        classifiedIds := classifiedIds + {card.id};
        listings := listings + [card];
        candidates := candidates + [card];
      }
      assert page.cards[..|page.cards|] == page.cards;
      TakeAllExtends(cfg, before, page.cards);
      assert listings[|before.listings|..] == candidates;
      handedOff := handedOff + candidates;
    }

    method PageComplete(page: Parsed) returns (complete: bool)
      ensures complete == Complete(View(), page)
    {
      complete := page.malformed == 0 && forall card :: card in page.cards ==> card.id in classifiedIds;
    }
  }

  /** After any interleaving: the pages in the order in which they were ingested. */
  function Ingested(cfg: Config, pages: seq<Parsed>): (s: Scan) {
    if pages == [] then START
    else
      var s := Ingested(cfg, pages[..|pages| - 1]);
      TakeAllExtends(cfg, s, pages[|pages| - 1].cards);
      Ingest(cfg, s, pages[|pages| - 1])
  }

  function CardIds(cards: seq<Card>): (ids: seq<Text>) {
    seq(|cards|, i requires 0 <= i < |cards| => cards[i].id)
  }

  function ListedIds(cards: seq<Card>): (ids: set<Text>) {
    set id | id in CardIds(cards)
  }

  ghost predicate Kept(cfg: Config, s: Scan) {
    && Distinct(CardIds(s.listings))
    && ListedIds(s.listings) !! cfg.known
    && ListedIds(s.listings) <= s.observed
    && s.classified == (s.observed * cfg.known) + ListedIds(s.listings)
    && (!cfg.recovery ==> |s.listings| <= cfg.maxCandidates)
  }

  lemma CardIdsSnoc(cards: seq<Card>, card: Card)
    ensures CardIds(cards + [card]) == CardIds(cards) + [card.id]
    ensures ListedIds(cards + [card]) == ListedIds(cards) + {card.id}
  {
    assert CardIds(cards + [card]) == CardIds(cards) + [card.id];
  }

  lemma TakeKeeps(cfg: Config, s: Scan, card: Card)
    requires Kept(cfg, s)
    ensures Kept(cfg, Take(cfg, s, card))
  {
    CardIdsSnoc(s.listings, card);
    hide CardIds;
    assert forall id :: id in CardIds(s.listings) ==> id in ListedIds(s.listings);
  }

  lemma {:induction false} TakeAllKeeps(cfg: Config, s: Scan, cards: seq<Card>)
    requires Kept(cfg, s)
    ensures Kept(cfg, TakeAll(cfg, s, cards))
  {
    if cards != [] {
      hide Kept, Take;
      TakeAllKeeps(cfg, s, cards[..|cards| - 1]);
      TakeKeeps(cfg, TakeAll(cfg, s, cards[..|cards| - 1]), cards[|cards| - 1]);
    }
  }

  /**
   * Whatever order concurrent pages are ingested in: listings have distinct,
   * unknown ids; the scanned ids are exactly the observed known ids and the
   * listed ids; outside recovery the listings stay within maxCandidates; and
   * each listing was handed off exactly once, in order.
   */
  lemma {:induction false} EveryOrderIsKept(cfg: Config, pages: seq<Parsed>)
    ensures Kept(cfg, Ingested(cfg, pages))
    ensures Ingested(cfg, pages).handedOff == Ingested(cfg, pages).listings
  {
    if pages == [] {
      assert ListedIds(START.listings) == {};
    } else {
      hide Kept, TakeAll;
      var s, page := Ingested(cfg, pages[..|pages| - 1]), pages[|pages| - 1];
      EveryOrderIsKept(cfg, pages[..|pages| - 1]);
      TakeAllExtends(cfg, s, page.cards);
      TakeAllKeeps(cfg, s, page.cards);
      var t := TakeAll(cfg, s, page.cards);
      assert s.listings + t.listings[|s.listings|..] == t.listings;
      KeptIgnoresHandoff(cfg, t, Ingested(cfg, pages));
    }
  }

  lemma KeptIgnoresHandoff(cfg: Config, s: Scan, t: Scan)
    requires Kept(cfg, s) && t == s.(handedOff := t.handedOff)
    ensures Kept(cfg, t)
  {
  }

  /** A page that was ingested, asked at any later moment, is complete exactly when nothing on it was malformed and each of its cards is known or listed. */
  lemma CompleteMeansAccounted(cfg: Config, pages: seq<Parsed>, page: Parsed)
    requires page in pages
    ensures var s := Ingested(cfg, pages);
            Complete(s, page)
            <==> page.malformed == 0 && forall card :: card in page.cards ==> card.id in cfg.known || card.id in ListedIds(s.listings)
  {
    EveryOrderIsKept(cfg, pages);
    IngestedPagesAreObserved(cfg, pages, page);
    hide ListedIds, Ingested;
  }

  lemma {:induction false} IngestedPagesAreObserved(cfg: Config, pages: seq<Parsed>, page: Parsed)
    requires page in pages
    ensures forall card :: card in page.cards ==> card.id in Ingested(cfg, pages).observed
  {
    var n := |pages| - 1;
    assert pages == pages[..n] + [pages[n]];
    TakeAllExtends(cfg, Ingested(cfg, pages[..n]), pages[n].cards);
    if page != pages[n] {
      IngestedPagesAreObserved(cfg, pages[..n], page);
    }
  }

  /** Completeness is final: whatever is ingested later, a page once complete stays accounted for. */
  lemma {:induction false} CompleteStaysComplete(cfg: Config, pages: seq<Parsed>, later: seq<Parsed>, page: Parsed)
    requires Complete(Ingested(cfg, pages), page)
    ensures Complete(Ingested(cfg, pages + later), page)
  {
    if later == [] {
      assert pages + later == pages;
    } else {
      var n := |later| - 1;
      CompleteStaysComplete(cfg, pages, later[..n], page);
      assert (pages + later)[..|pages + later| - 1] == pages + later[..n];
      TakeAllExtends(cfg, Ingested(cfg, pages + later[..n]), later[n].cards);
    }
  }

  // ----- what is listed, stated over the cards of the pages

  function AllCards(pages: seq<Parsed>): (cards: seq<Card>) {
    if pages == [] then [] else AllCards(pages[..|pages| - 1]) + pages[|pages| - 1].cards
  }

  /** The listable cards of unknown ids, each id at its first card. */
  function NewCards(known: set<Text>, cards: seq<Card>): (r: seq<Card>) {
    if cards == [] then []
    else
      var n := |cards| - 1;
      NewCards(known, cards[..n])
      + if cards[n].id !in known && cards[n].listable && (forall j :: 0 <= j < n ==> cards[j].id != cards[n].id) then [cards[n]] else []
  }

  /** All of them in recovery, and as many as the budget allows otherwise. */
  function WithinBudget(cfg: Config, cards: seq<Card>): (r: seq<Card>) {
    if cfg.recovery || |cards| <= cfg.maxCandidates then cards else cards[..cfg.maxCandidates]
  }

  predicate ListsSoFar(cfg: Config, s: Scan, cards: seq<Card>) {
    s.listings == WithinBudget(cfg, NewCards(cfg.known, cards)) && s.observed == set card | card in cards :: card.id
  }

  lemma TakeLists(cfg: Config, s: Scan, cards: seq<Card>, card: Card)
    requires ListsSoFar(cfg, s, cards)
    ensures ListsSoFar(cfg, Take(cfg, s, card), cards + [card])
  {
    NewCardsSnoc(cfg.known, cards, card);
    ObservedSnoc(cards, card);
    hide NewCards;
    assert NewCards(cfg.known, cards) + [] == NewCards(cfg.known, cards);
  }

  lemma NewCardsSnoc(known: set<Text>, cards: seq<Card>, card: Card)
    ensures NewCards(known, cards + [card])
         == NewCards(known, cards)
            + if card.id !in known && card.listable && card.id !in (set c | c in cards :: c.id) then [card] else []
  {
    var more := cards + [card];
    assert more[..|more| - 1] == cards;
    if card.id in set c | c in cards :: c.id {
      var twin :| twin in cards && twin.id == card.id;
      var j :| 0 <= j < |cards| && cards[j] == twin;
      assert more[j].id == card.id;
    } else {
      assert forall j :: 0 <= j < |cards| ==> more[j] == cards[j] && cards[j] in cards;
    }
    hide NewCards;
  }

  lemma ObservedSnoc(cards: seq<Card>, card: Card)
    ensures (set c | c in cards + [card] :: c.id) == (set c | c in cards :: c.id) + {card.id}
  {
  }

  lemma {:induction false} TakeAllLists(cfg: Config, s: Scan, before: seq<Card>, cards: seq<Card>)
    requires ListsSoFar(cfg, s, before)
    ensures ListsSoFar(cfg, TakeAll(cfg, s, cards), before + cards)
  {
    if cards == [] {
      assert before + cards == before;
    } else {
      hide ListsSoFar, Take;
      var n := |cards| - 1;
      TakeAllLists(cfg, s, before, cards[..n]);
      TakeLists(cfg, TakeAll(cfg, s, cards[..n]), before + cards[..n], cards[n]);
      assert before + cards == before + cards[..n] + [cards[n]];
    }
  }

  /**
   * For every ingestion order: of all cards of the pages, the listable ones of
   * unknown ids are listed, each id at its first card and in order, all of them in
   * recovery and otherwise the first maxCandidates.
   */
  lemma {:induction false} ListingsAreFirstNew(cfg: Config, pages: seq<Parsed>)
    ensures ListsSoFar(cfg, Ingested(cfg, pages), AllCards(pages))
  {
    if pages == [] {
      assert Ingested(cfg, pages) == START;
      assert NewCards(cfg.known, []) == [];
    } else {
      var n := |pages| - 1;
      var s := Ingested(cfg, pages[..n]);
      ListingsAreFirstNew(cfg, pages[..n]);
      TakeAllExtends(cfg, s, pages[n].cards);
      TakeAllLists(cfg, s, AllCards(pages[..n]), pages[n].cards);
    }
  }

  /** With one card per id, an unknown listable card of an ingested page is listed unless the budget is used up. */
  lemma NewCardsAreListed(cfg: Config, universe: set<Card>, pages: seq<Parsed>, card: Card)
    requires OneCardPerId(universe) && forall c :: c in AllCards(pages) ==> c in universe
    requires card in AllCards(pages) && card.id !in cfg.known && card.listable
    ensures card in Ingested(cfg, pages).listings || (!cfg.recovery && |Ingested(cfg, pages).listings| == cfg.maxCandidates)
  {
    ListingsAreFirstNew(cfg, pages);
    NewCardsHold(universe, cfg.known, AllCards(pages), card);
  }

  lemma {:induction false} NewCardsHold(universe: set<Card>, known: set<Text>, cards: seq<Card>, card: Card)
    requires OneCardPerId(universe) && forall c :: c in cards ==> c in universe
    requires card in cards && card.id !in known && card.listable
    ensures card in NewCards(known, cards)
  {
    var n := |cards| - 1;
    assert cards == cards[..n] + [cards[n]];
    if card in cards[..n] {
      NewCardsHold(universe, known, cards[..n], card);
    } else if j :| 0 <= j < n && cards[j].id == card.id {
      assert cards[j] in cards[..n] && cards[j] == card;
    }
  }

  // ----- recovery never starves a page

  predicate OneCardPerId(universe: set<Card>) {
    forall a, b :: a in universe && b in universe && a.id == b.id ==> a == b
  }

  ghost predicate FullyClassified(cfg: Config, universe: set<Card>, s: Scan) {
    forall card :: card in universe && card.id in s.observed ==> (card.id in s.classified <==> card.id in cfg.known || card.listable)
  }

  lemma TakeClassifies(cfg: Config, universe: set<Card>, s: Scan, card: Card)
    requires cfg.recovery && OneCardPerId(universe) && card in universe
    requires s.classified <= s.observed && FullyClassified(cfg, universe, s)
    ensures var t := Take(cfg, s, card); t.classified <= t.observed && FullyClassified(cfg, universe, t)
  {
  }

  lemma {:induction false} TakeAllClassifies(cfg: Config, universe: set<Card>, s: Scan, cards: seq<Card>)
    requires cfg.recovery && OneCardPerId(universe) && forall card :: card in cards ==> card in universe
    requires s.classified <= s.observed && FullyClassified(cfg, universe, s)
    ensures var t := TakeAll(cfg, s, cards); t.classified <= t.observed && FullyClassified(cfg, universe, t)
  {
    if cards != [] {
      hide Take, OneCardPerId;
      var n := |cards| - 1;
      assert forall card :: card in cards[..n] ==> card in cards;
      TakeAllClassifies(cfg, universe, s, cards[..n]);
      TakeClassifies(cfg, universe, TakeAll(cfg, s, cards[..n]), cards[n]);
    }
  }

  lemma {:induction false} RecoveryClassifies(cfg: Config, universe: set<Card>, pages: seq<Parsed>)
    requires cfg.recovery && OneCardPerId(universe)
    requires forall page, card :: page in pages && card in page.cards ==> card in universe
    ensures var s := Ingested(cfg, pages); s.classified <= s.observed && FullyClassified(cfg, universe, s)
  {
    if pages != [] {
      hide OneCardPerId, TakeAll;
      var n := |pages| - 1;
      assert pages[n] in pages && forall page :: page in pages[..n] ==> page in pages;
      RecoveryClassifies(cfg, universe, pages[..n]);
      TakeAllClassifies(cfg, universe, Ingested(cfg, pages[..n]), pages[n].cards);
    }
  }

  /**
   * In a recovery scan, with one card per id, completeness of a page is a fact
   * about that page alone: nothing malformed, and every card known or listable.
   * No budget and no other page can hold the cursor back.
   */
  lemma RecoveryPagesAreNotStarved(cfg: Config, universe: set<Card>, pages: seq<Parsed>, page: Parsed)
    requires cfg.recovery && OneCardPerId(universe) && page in pages
    requires forall p, card :: p in pages && card in p.cards ==> card in universe
    ensures Complete(Ingested(cfg, pages), page)
            <==> page.malformed == 0 && forall card :: card in page.cards ==> card.id in cfg.known || card.listable
  {
    RecoveryClassifies(cfg, universe, pages);
    IngestedPagesAreObserved(cfg, pages, page);
    hide Ingested, OneCardPerId;
  }
}
