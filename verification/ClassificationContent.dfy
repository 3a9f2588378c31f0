/** What a classification accepts and publishes, in terms of the stocks of the file. */
module ClassificationContent {
  import opened Json
  import opened Sequences
  import opened Identity
  import opened Unicode
  import opened Classification
  import opened ClassificationClosure
  import CanonicalForm

  // ---- what is accepted ----

  predicate Trim(s: string) { s != "" && TrimSpace(s) == s }

  /** A six-digit code on one of three exchanges, two levels of industry, and named concepts and chains without repetition. */
  predicate RowAccepted(x: Row) {
    && |x.code| == 6 && (forall i | 0 <= i < 6 :: '0' <= x.code[i] <= '9') && x.exchange in {"SH", "SZ", "BJ"}
    && Trim(x.l1) && Trim(x.l2) && x.concepts.Some? && x.chains.Some?
    && (forall i | 0 <= i < |x.concepts.value| ::
          && Trim(x.concepts.value[i].code) && Trim(x.concepts.value[i].name)
          && forall j | 0 <= j < i :: x.concepts.value[j].code != x.concepts.value[i].code)
    && (forall i | 0 <= i < |x.chains.value| ::
          Trim(x.chains.value[i]) && forall j | 0 <= j < i :: x.chains.value[j] != x.chains.value[i])
  }

  ghost predicate HasConcept(stocks: seq<Row>, c: Concept) {
    exists x | x in stocks :: x.concepts.Some? && c in x.concepts.value
  }

  /** A file is accepted exactly when it says how many stocks it has, each is accepted, no stock occurs twice, and over all
    stocks one concept code goes with one concept name. */
  lemma AcceptedIff(s: Source)
    ensures ValidSource(s) <==>
              && s.stocks != [] && s.recordCount == |s.stocks| == s.universe
              && (forall x | x in s.stocks :: RowAccepted(x))
              && (forall i, j | 0 <= i < j < |s.stocks| ::
                    s.stocks[i].code != s.stocks[j].code || s.stocks[i].exchange != s.stocks[j].exchange)
              && forall c, d | HasConcept(s.stocks, c) && HasConcept(s.stocks, d) :: c.code == d.code <==> c.name == d.name
  {
    forall x | x in s.stocks ensures ValidRow(x) <==> RowAccepted(x) {
      RowValid(x);
    }
    if forall x | x in s.stocks :: RowAccepted(x) {
      SymbolsDistinct(s.stocks);
    }
    AllConceptsAre(s.stocks);
    hide ValidRow, RowAccepted, Symbols, AllConcepts, HasConcept;
  }

  lemma RowValid(x: Row)
    ensures ValidRow(x) <==> RowAccepted(x)
  {
    hide TrimSpace;
    if x.concepts.Some? && x.chains.Some? {
      assert forall i | 0 <= i < |x.concepts.value| :: x.concepts.value[i] in x.concepts.value;
      assert forall i | 0 <= i < |x.chains.value| :: x.chains.value[i] in x.chains.value;
    }
  }

  lemma SameSymbol(x: Row, y: Row)
    requires |x.code| == |y.code|
    ensures Symbol(x) == Symbol(y) <==> x.code == y.code && x.exchange == y.exchange
  {
    assert Symbol(x)[..|x.code|] == x.code && Symbol(y)[..|y.code|] == y.code;
    assert Symbol(x)[|x.code| + 1..] == x.exchange && Symbol(y)[|y.code| + 1..] == y.exchange;
  }

  lemma SymbolsDistinct(stocks: seq<Row>)
    requires forall x | x in stocks :: RowAccepted(x)
    ensures Distinct(Symbols(stocks)) <==>
            forall i, j | 0 <= i < j < |stocks| :: stocks[i].code != stocks[j].code || stocks[i].exchange != stocks[j].exchange
  {
    forall i, j | 0 <= i < j < |stocks|
      ensures Symbols(stocks)[i] == Symbols(stocks)[j] <==> stocks[i].code == stocks[j].code && stocks[i].exchange == stocks[j].exchange
    {
      assert stocks[i] in stocks && stocks[j] in stocks;
      SameSymbol(stocks[i], stocks[j]);
    }
    hide RowAccepted, Symbols;
  }

  lemma {:induction false} AllConceptsAre(stocks: seq<Row>)
    ensures forall c :: c in AllConcepts(stocks) <==> HasConcept(stocks, c)
  {
    if stocks != [] {
      var init, last := stocks[..|stocks| - 1], stocks[|stocks| - 1];
      AllConceptsAre(init);
      assert stocks == init + [last];
      hide AllConcepts;
      forall c ensures HasConcept(stocks, c) <==> HasConcept(init, c) || (last.concepts.Some? && c in last.concepts.value) {}
      hide HasConcept;
      assert AllConcepts(stocks) == AllConcepts(init) + ConceptsOf(last) by { LastConcepts(stocks); }
    }
  }

  lemma LastConcepts(stocks: seq<Row>)
    requires stocks != []
    ensures AllConcepts(stocks) == AllConcepts(stocks[..|stocks| - 1]) + ConceptsOf(stocks[|stocks| - 1])
  {
  }

  // ---- what is published ----

  function Derived(r: Rules, kind: string, parts: seq<string>): string {
    kind + r.hash(Seed(kind, "stock-classification-v1", parts))
  }

  /** The first-level industry of a stock: a root named after it. */
  predicate IsRoot(r: Rules, s: Row, x: Industry) {
    && x.id == Derived(r, "SIND", ["wind", s.l1]) && x.name == s.l1 && x.parent == None
    && x.code == "local-" + r.digest([s.l1]) && x.path == [x.code]
  }

  /** The second-level industry of a stock: a child of its first-level one. */
  predicate IsLeaf(r: Rules, s: Row, x: Industry) {
    && x.id == Derived(r, "SIND", ["wind", s.l1, s.l2]) && x.name == s.l2 && x.parent == Some(Derived(r, "SIND", ["wind", s.l1]))
    && x.code == "local-" + r.digest([s.l1, s.l2]) && x.path == ["local-" + r.digest([s.l1]), x.code]
  }

  ghost predicate RootListed(r: Rules, s: Row, list: seq<Industry>) { exists x | x in list :: IsRoot(r, s, x) }

  ghost predicate LeafListed(r: Rules, s: Row, list: seq<Industry>) { exists x | x in list :: IsLeaf(r, s, x) }

  ghost predicate LevelOfSome(r: Rules, stocks: seq<Row>, x: Industry) { exists s | s in stocks :: IsRoot(r, s, x) || IsLeaf(r, s, x) }

  /** The industries published are the two levels of every stock and no other. */
  lemma PublishedIndustries(r: Rules, resolve: map<string, string>, stocks: seq<Row>, p: Publication)
    requires PlainRows(stocks) && NoIndustryCollision(r, stocks) && Publishes(r, resolve, stocks, p)
    ensures forall s | s in stocks :: RootListed(r, s, p.industries) && LeafListed(r, s, p.industries)
    ensures forall x | x in p.industries :: LevelOfSome(r, stocks, x)
  {
    hide *;
    forall s | s in stocks ensures RootListed(r, s, p.industries) && LeafListed(r, s, p.industries) {
      PublishesIndustries(r, resolve, stocks, p);
      StockIndustries(r, stocks, p.industries, s);
    }
    forall x | x in p.industries ensures LevelOfSome(r, stocks, x) {
      PublishesIndustries(r, resolve, stocks, p);
      IndustryStock(r, stocks, p.industries, x);
    }
  }

  lemma PublishesIndustries(r: Rules, resolve: map<string, string>, stocks: seq<Row>, p: Publication)
    requires Publishes(r, resolve, stocks, p)
    ensures ListsIndustries(p.industries, Industries(r, stocks))
  {
    hide ListsIndustries, Industries;
  }

  lemma StockIndustries(r: Rules, stocks: seq<Row>, list: seq<Industry>, s: Row)
    requires PlainRows(stocks) && NoIndustryCollision(r, stocks) && ListsIndustries(list, Industries(r, stocks)) && s in stocks
    ensures RootListed(r, s, list) && LeafListed(r, s, list)
  {
    AllRecords(r, stocks, s);
    Levels(r, s);
    hide PlainRows, NoIndustryCollision, Industries, Ordered, IsRoot, IsLeaf, Root, Leaf, RootID, LeafID;
    assert Root(r, s) in list && Leaf(r, s) in list;
  }

  lemma IndustryStock(r: Rules, stocks: seq<Row>, list: seq<Industry>, x: Industry)
    requires PlainRows(stocks) && NoIndustryCollision(r, stocks) && ListsIndustries(list, Industries(r, stocks)) && x in list
    ensures LevelOfSome(r, stocks, x)
  {
    var s := ListedIndustry(r, stocks, list, x);
    Levels(r, s);
    hide PlainRows, NoIndustryCollision, ListsIndustries, IsRoot, IsLeaf, Root, Leaf;
  }

  lemma Levels(r: Rules, s: Row)
    ensures IsRoot(r, s, Root(r, s)) && IsLeaf(r, s, Leaf(r, s))
  {
    hide Seed;
  }

  /** The lists are in the order the answer promises: industries by length of path and then by identity, concepts and chains
    by identity. */
  lemma PublishedOrder(r: Rules, resolve: map<string, string>, stocks: seq<Row>, p: Publication)
    requires Publishes(r, resolve, stocks, p)
    ensures forall i, j | 0 <= i < j < |p.industries| ::
              || |p.industries[i].path| < |p.industries[j].path|
              || (|p.industries[i].path| == |p.industries[j].path| && Precedes(Utf8(p.industries[i].id), Utf8(p.industries[j].id)))
    ensures forall i, j | 0 <= i < j < |p.concepts| :: Precedes(Utf8(p.concepts[i].id), Utf8(p.concepts[j].id))
    ensures forall i, j | 0 <= i < j < |p.chains| :: Precedes(Utf8(p.chains[i].id), Utf8(p.chains[j].id))
  {
    forall s: string, t: string ensures CanonicalForm.Less(CanonicalForm.Utf8Order, s, t) <==> Precedes(Utf8(s), Utf8(t)) {
      KeyOrdersPrecede(s, t);
    }
    hide Precedes, Utf8, CanonicalForm.Less, Industries, Concepts, Chains, IndustryLinks, ConceptLinks, ChainLinks, StockIDs;
  }

  predicate NamesConcept(stocks: seq<Row>, name: string) {
    exists s | s in stocks :: s.concepts.Some? && exists c | c in s.concepts.value :: c.name == name
  }

  predicate NamesChain(stocks: seq<Row>, name: string) { exists s | s in stocks :: s.chains.Some? && name in s.chains.value }

  /** One concept and one chain is published for every name that occurs, under the identity derived from the name. */
  lemma PublishedMasters(r: Rules, resolve: map<string, string>, stocks: seq<Row>, p: Publication)
    requires PlainRows(stocks) && NoNameCollision(r, stocks) && Publishes(r, resolve, stocks, p)
    ensures forall name :: NamesConcept(stocks, name) <==> Master(Derived(r, "SCON", [name]), name) in p.concepts
    ensures forall x | x in p.concepts :: x.id == Derived(r, "SCON", [x.name])
    ensures forall name :: NamesChain(stocks, name) <==> Master(Derived(r, "SICH", [name]), name) in p.chains
    ensures forall x | x in p.chains :: x.id == Derived(r, "SICH", [x.name])
  {
    ConceptsPublished(r, stocks, p.concepts);
    ChainsPublished(r, stocks, p.chains);
    hide *;
  }

  lemma ConceptsPublished(r: Rules, stocks: seq<Row>, list: seq<Master>)
    requires PlainRows(stocks) && NoNameCollision(r, stocks) && ListsMasters(list, Concepts(r, stocks))
    ensures forall name :: NamesConcept(stocks, name) <==> Master(Derived(r, "SCON", [name]), name) in list
    ensures forall x | x in list :: x.id == Derived(r, "SCON", [x.name])
  {
    ConceptRecords(r, stocks);
    var m := Concepts(r, stocks);
    forall name ensures ConceptID(r, name) == Derived(r, "SCON", [name]) {}
    forall name ensures NamesConcept(stocks, name) <==> ConceptName(stocks, name) {}
    hide Concepts, Derived, ConceptID, PlainRows, NoNameCollision, CanonicalForm.Less, NamesConcept;
    forall name | ConceptName(stocks, name) ensures Master(ConceptID(r, name), name) in list {
      var s :| s in stocks && exists c | c in ConceptsOf(s) :: c.name == name;
      var c :| c in ConceptsOf(s) && c.name == name;
      assert ConceptID(r, c.name) in m;
      var n :| ConceptName(stocks, n) && ConceptID(r, name) == ConceptID(r, n) && m[ConceptID(r, name)] == Master(ConceptID(r, name), n);
      SameConcept(r, stocks, name, n);
    }
    hide ConceptName;
    forall x | x in list ensures x.id == ConceptID(r, x.name) && ConceptName(stocks, x.name) {
      assert x.id in m && m[x.id] == x;
    }
  }

  lemma ChainsPublished(r: Rules, stocks: seq<Row>, list: seq<Master>)
    requires PlainRows(stocks) && NoNameCollision(r, stocks) && ListsMasters(list, Chains(r, stocks))
    ensures forall name :: NamesChain(stocks, name) <==> Master(Derived(r, "SICH", [name]), name) in list
    ensures forall x | x in list :: x.id == Derived(r, "SICH", [x.name])
  {
    ChainRecords(r, stocks);
    var m := Chains(r, stocks);
    forall name ensures ChainID(r, name) == Derived(r, "SICH", [name]) {}
    forall name ensures NamesChain(stocks, name) <==> ChainName(stocks, name) {}
    hide Chains, Derived, ChainID, PlainRows, NoNameCollision, CanonicalForm.Less, NamesChain;
    forall name | ChainName(stocks, name) ensures Master(ChainID(r, name), name) in list {
      var s :| s in stocks && name in ChainsOf(s);
      assert ChainID(r, name) in m;
      var n :| ChainName(stocks, n) && ChainID(r, name) == ChainID(r, n) && m[ChainID(r, name)] == Master(ChainID(r, name), n);
      SameChain(r, stocks, name, n);
    }
    hide ChainName;
    forall x | x in list ensures x.id == ChainID(r, x.name) && ChainName(stocks, x.name) {
      assert x.id in m && m[x.id] == x;
    }
  }

  // ---- the links ----

  /** A link joins the stock the repository knows under the row's symbol to the target, under the identity derived from both. */
  predicate IsLink(r: Rules, kind: string, resolve: map<string, string>, s: Row, target: string, l: Link) {
    && s.code + "." + s.exchange in resolve && l.stockId == resolve[s.code + "." + s.exchange] && l.targetId == target
    && l.id == Derived(r, kind, [l.stockId, target])
  }

  ghost predicate Linked(r: Rules, kind: string, resolve: map<string, string>, s: Row, target: string, links: seq<Link>) {
    exists l | l in links :: IsLink(r, kind, resolve, s, target, l)
  }

  lemma LinkBuilt(r: Rules, kind: string, resolve: map<string, string>, s: Row, target: string)
    requires Is(StockID(resolve, s), "STK")
    ensures IsLink(r, kind, resolve, s, target, NewLink(r, kind, StockID(resolve, s), target))
  {
    assert !Is("", "STK");
    hide Seed, Is;
  }

  /** Every stock is linked to the two levels of its industry, to each of its concepts and to each of its chains. */
  lemma {:induction false} PublishedLinks(r: Rules, resolve: map<string, string>, stocks: seq<Row>, s: Row)
    requires Resolved(resolve, stocks) && s in stocks
    ensures Linked(r, "SIL", resolve, s, Derived(r, "SIND", ["wind", s.l1]), IndustryLinks(r, resolve, stocks))
    ensures Linked(r, "SIL", resolve, s, Derived(r, "SIND", ["wind", s.l1, s.l2]), IndustryLinks(r, resolve, stocks))
    ensures forall c | c in ConceptsOf(s) :: Linked(r, "SCL", resolve, s, Derived(r, "SCON", [c.name]), ConceptLinks(r, resolve, stocks))
    ensures forall c | c in ChainsOf(s) :: Linked(r, "SICL", resolve, s, Derived(r, "SICH", [c]), ChainLinks(r, resolve, stocks))
  {
    var init, last := stocks[..|stocks| - 1], stocks[|stocks| - 1];
    assert stocks == init + [last];
    hide IsLink, Derived, RootID, LeafID, ConceptID, ChainID, NewLink, Is;
    if s in init {
      assert Resolved(resolve, init);
      PublishedLinks(r, resolve, init, s);
      hide RowIndustryLinks, RowConceptLinks, RowChainLinks;
    } else {
      hide IndustryLinks, ConceptLinks, ChainLinks;
      LastLinks(r, resolve, stocks);
    }
  }

  lemma LastLinks(r: Rules, resolve: map<string, string>, stocks: seq<Row>)
    requires Resolved(resolve, stocks) && stocks != []
    ensures var s := stocks[|stocks| - 1];
            && Linked(r, "SIL", resolve, s, Derived(r, "SIND", ["wind", s.l1]), IndustryLinks(r, resolve, stocks))
            && Linked(r, "SIL", resolve, s, Derived(r, "SIND", ["wind", s.l1, s.l2]), IndustryLinks(r, resolve, stocks))
            && (forall c | c in ConceptsOf(s) :: Linked(r, "SCL", resolve, s, Derived(r, "SCON", [c.name]), ConceptLinks(r, resolve, stocks)))
            && forall c | c in ChainsOf(s) :: Linked(r, "SICL", resolve, s, Derived(r, "SICH", [c]), ChainLinks(r, resolve, stocks))
  {
    var s := stocks[|stocks| - 1];
    assert s in stocks && Is(StockID(resolve, s), "STK");
    LinkBuilt(r, "SIL", resolve, s, RootID(r, s));
    LinkBuilt(r, "SIL", resolve, s, LeafID(r, s));
    assert RootID(r, s) == Derived(r, "SIND", ["wind", s.l1]) && LeafID(r, s) == Derived(r, "SIND", ["wind", s.l1, s.l2]);
    forall n: string ensures ConceptID(r, n) == Derived(r, "SCON", [n]) && ChainID(r, n) == Derived(r, "SICH", [n]) {}
    hide IsLink, Derived, RootID, LeafID, ConceptID, ChainID, NewLink, Is;
    var a, b := RowIndustryLinks(r, resolve, s)[0], RowIndustryLinks(r, resolve, s)[1];
    assert a in IndustryLinks(r, resolve, stocks) && b in IndustryLinks(r, resolve, stocks);
    forall c | c in ConceptsOf(s) ensures Linked(r, "SCL", resolve, s, ConceptID(r, c.name), ConceptLinks(r, resolve, stocks)) {
      LinkBuilt(r, "SCL", resolve, s, ConceptID(r, c.name));
      var i :| 0 <= i < |ConceptsOf(s)| && ConceptsOf(s)[i] == c;
      assert RowConceptLinks(r, StockID(resolve, s), ConceptsOf(s))[i] in ConceptLinks(r, resolve, stocks);
    }
    forall c | c in ChainsOf(s) ensures Linked(r, "SICL", resolve, s, ChainID(r, c), ChainLinks(r, resolve, stocks)) {
      LinkBuilt(r, "SICL", resolve, s, ChainID(r, c));
      var i :| 0 <= i < |ChainsOf(s)| && ChainsOf(s)[i] == c;
      assert RowChainLinks(r, StockID(resolve, s), ChainsOf(s))[i] in ChainLinks(r, resolve, stocks);
    }
  }
}
