/** A classification publication is closed, free of repetitions and topologically ordered. */
module ClassificationClosure {
  import opened Json
  import opened Sequences
  import opened Identity
  import opened Classification
  import CanonicalForm

  // ---- derived identities of proper, NUL-free parts ----

  predicate Plain(part: string) { Proper(part) && NulFree(part) }

  predicate PlainParts(parts: seq<string>) { parts != [] && forall i | 0 <= i < |parts| :: Plain(parts[i]) }

  predicate ProperParts(parts: seq<string>) { parts != [] && forall i | 0 <= i < |parts| :: Proper(parts[i]) }

  lemma NamespacePlain()
    ensures TrimSpace(NAMESPACE) == NAMESPACE && NulFree(NAMESPACE) && Plain("wind")
  {
    TrimPlain(NAMESPACE);
    TrimPlain("wind");
  }

  /** Derivation never fails on proper parts, so no allocation error can arise. */
  lemma DerivationSucceeds(kind: string, parts: seq<string>)
    requires ValidKind(kind) && ProperParts(parts)
    ensures Derivable(kind, NAMESPACE, parts) && Trimmed(parts) == parts
  {
    NamespacePlain();
  }

  lemma SameDerived(r: Rules, kind: string, p: seq<string>, q: seq<string>)
    requires ValidKind(kind) && PlainParts(p) && PlainParts(q)
    requires NoCollision(r.hash, Seed(kind, NAMESPACE, p), Seed(kind, NAMESPACE, q))
    ensures DeriveID(r, kind, p) == DeriveID(r, kind, q) <==> p == q
  {
    DerivationSucceeds(kind, p);
    DerivationSucceeds(kind, q);
    NamespacePlain();
    hide Seed, TrimSpace, ValidKind, Proper;
    SeedInjective(kind, NAMESPACE, p, kind, NAMESPACE, q);
    if DeriveID(r, kind, p) == DeriveID(r, kind, q) {
      assert DeriveID(r, kind, p)[|kind|..] == r.hash(Seed(kind, NAMESPACE, p));
      assert DeriveID(r, kind, q)[|kind|..] == r.hash(Seed(kind, NAMESPACE, q));
    }
  }

  // ---- what is assumed ----

  predicate PlainRow(s: Row) {
    && ValidRow(s) && NulFree(s.l1) && NulFree(s.l2)
    && (forall c | c in ConceptsOf(s) :: NulFree(c.name)) && forall c | c in ChainsOf(s) :: NulFree(c)
  }

  predicate PlainRows(stocks: seq<Row>) { forall s | s in stocks :: PlainRow(s) }

  predicate IndustryParts(stocks: seq<Row>, p: seq<string>) { exists s | s in stocks :: p == RootParts(s) || p == LeafParts(s) }

  ghost predicate NoIndustryCollision(r: Rules, stocks: seq<Row>) {
    forall p, q | IndustryParts(stocks, p) && IndustryParts(stocks, q) ::
      NoCollision(r.hash, Seed("SIND", NAMESPACE, p), Seed("SIND", NAMESPACE, q))
  }

  predicate ConceptName(stocks: seq<Row>, name: string) { exists s | s in stocks :: exists c | c in ConceptsOf(s) :: c.name == name }

  predicate ChainName(stocks: seq<Row>, name: string) { exists s | s in stocks :: name in ChainsOf(s) }

  ghost predicate NoNameCollision(r: Rules, stocks: seq<Row>) {
    && (forall n, m | ConceptName(stocks, n) && ConceptName(stocks, m) ::
          NoCollision(r.hash, Seed("SCON", NAMESPACE, [n]), Seed("SCON", NAMESPACE, [m])))
    && (forall n, m | ChainName(stocks, n) && ChainName(stocks, m) ::
          NoCollision(r.hash, Seed("SICH", NAMESPACE, [n]), Seed("SICH", NAMESPACE, [m])))
  }

  /** The repository resolves different symbols to different stocks. */
  predicate Injective(resolve: map<string, string>, stocks: seq<Row>) {
    forall s, t | s in stocks && t in stocks && StockID(resolve, s) == StockID(resolve, t) :: Symbol(s) == Symbol(t)
  }

  // ---- industries ----

  lemma PartsPlain(stocks: seq<Row>, p: seq<string>)
    requires PlainRows(stocks) && IndustryParts(stocks, p)
    ensures PlainParts(p)
  {
    NamespacePlain();
    hide Proper, SixDigits, ValidConcepts, ValidChains;
    var s :| s in stocks && (p == RootParts(s) || p == LeafParts(s));
    assert PlainRow(s);
  }

  /** Industry ids are equal exactly when their parts are. */
  lemma SameIndustry(r: Rules, stocks: seq<Row>, p: seq<string>, q: seq<string>)
    requires PlainRows(stocks) && NoIndustryCollision(r, stocks) && IndustryParts(stocks, p) && IndustryParts(stocks, q)
    ensures DeriveID(r, "SIND", p) == DeriveID(r, "SIND", q) <==> p == q
  {
    PartsPlain(stocks, p);
    PartsPlain(stocks, q);
    hide PlainRows, IndustryParts, PlainParts, DeriveID, Seed;
    SameDerived(r, "SIND", p, q);
  }

  lemma RowIndustries(r: Rules, stocks: seq<Row>, s: Row, t: Row)
    requires PlainRows(stocks) && NoIndustryCollision(r, stocks) && s in stocks && t in stocks
    ensures RootID(r, s) == RootID(r, t) <==> s.l1 == t.l1
    ensures LeafID(r, s) == LeafID(r, t) <==> s.l1 == t.l1 && s.l2 == t.l2
    ensures RootID(r, s) != LeafID(r, t)
  {
    assert IndustryParts(stocks, RootParts(s)) && IndustryParts(stocks, RootParts(t));
    assert IndustryParts(stocks, LeafParts(s)) && IndustryParts(stocks, LeafParts(t));
    hide PlainRows, NoIndustryCollision, IndustryParts, DeriveID;
    SameIndustry(r, stocks, RootParts(s), RootParts(t));
    SameIndustry(r, stocks, LeafParts(s), LeafParts(t));
    SameIndustry(r, stocks, RootParts(s), LeafParts(t));
    assert RootParts(s)[1] == s.l1 && RootParts(t)[1] == t.l1 && LeafParts(s)[2] == s.l2 && LeafParts(t)[2] == t.l2;
    assert LeafParts(s)[1] == s.l1 && LeafParts(t)[1] == t.l1;
    assert |RootParts(s)| == 2 && |LeafParts(t)| == 3;
  }

  lemma {:induction false} IndustryKeys(r: Rules, stocks: seq<Row>)
    ensures forall k | k in Industries(r, stocks) :: exists s | s in stocks :: k == RootID(r, s) || k == LeafID(r, s)
  {
    hide RootID, LeafID, Root, Leaf;
    if stocks != [] {
      var init, last := stocks[..|stocks| - 1], stocks[|stocks| - 1];
      IndustryKeys(r, init);
      assert stocks == init + [last];
    }
  }

  ghost predicate HasRecords(r: Rules, m: map<string, Industry>, s: Row) {
    && RootID(r, s) in m && m[RootID(r, s)] == Root(r, s)
    && LeafID(r, s) in m && m[LeafID(r, s)] == Leaf(r, s)
  }

  lemma RecordsStay(r: Rules, stocks: seq<Row>, m: map<string, Industry>, s: Row, last: Row)
    requires PlainRows(stocks) && NoIndustryCollision(r, stocks) && s in stocks && last in stocks
    requires HasRecords(r, m, s) || s == last
    ensures HasRecords(r, m[RootID(r, last) := Root(r, last)][LeafID(r, last) := Leaf(r, last)], s)
  {
    RowIndustries(r, stocks, s, last);
    RowIndustries(r, stocks, last, s);
    hide PlainRows, NoIndustryCollision, RootID, LeafID, InternalCode;
  }

  /** The map holds for every stock its root and its leaf. */
  lemma {:induction false} IndustryRecords(r: Rules, stocks: seq<Row>, n: nat)
    requires n <= |stocks| && PlainRows(stocks) && NoIndustryCollision(r, stocks)
    ensures forall s | s in stocks[..n] :: HasRecords(r, Industries(r, stocks[..n]), s)
  {
    hide PlainRows, NoIndustryCollision, RootID, LeafID, Root, Leaf, HasRecords;
    if n > 0 {
      IndustryRecords(r, stocks, n - 1);
      var last := stocks[n - 1];
      assert stocks[..n][..n - 1] == stocks[..n - 1] && stocks[..n][n - 1] == last && stocks[..n] == stocks[..n - 1] + [last];
      forall s | s in stocks[..n] ensures HasRecords(r, Industries(r, stocks[..n]), s) {
        RecordsStay(r, stocks, Industries(r, stocks[..n - 1]), s, last);
      }
    }
  }

  lemma AllRecords(r: Rules, stocks: seq<Row>, s: Row)
    requires PlainRows(stocks) && NoIndustryCollision(r, stocks) && s in stocks
    ensures HasRecords(r, Industries(r, stocks), s)
  {
    IndustryRecords(r, stocks, |stocks|);
    assert stocks[..|stocks|] == stocks;
    hide PlainRows, NoIndustryCollision, HasRecords, Industries;
  }

  /** A listed industry is the root or the leaf of a stock. */
  lemma ListedIndustry(r: Rules, stocks: seq<Row>, list: seq<Industry>, x: Industry) returns (s: Row)
    requires PlainRows(stocks) && NoIndustryCollision(r, stocks) && ListsIndustries(list, Industries(r, stocks)) && x in list
    ensures s in stocks && (x == Root(r, s) || x == Leaf(r, s)) && Root(r, s) in list
  {
    IndustryKeys(r, stocks);
    hide PlainRows, NoIndustryCollision, Industries, RootID, LeafID, Ordered;
    s :| s in stocks && (x.id == RootID(r, s) || x.id == LeafID(r, s));
    AllRecords(r, stocks, s);
  }

  predicate ParentFirst(list: seq<Industry>, i: nat)
    requires i < |list|
  {
    list[i].parent.Some? ==> exists j | 0 <= j < i :: Parent(list[j], list[i])
  }

  /** A root, and its path is the beginning of the child's path. */
  predicate Parent(a: Industry, b: Industry) { b.parent == Some(a.id) && a.parent.None? && a.path < b.path }

  /** In the sorted list every industry's parent stands earlier, with a path that is its prefix. */
  lemma ParentsFirst(r: Rules, stocks: seq<Row>, list: seq<Industry>, i: nat)
    requires PlainRows(stocks) && NoIndustryCollision(r, stocks) && ListsIndustries(list, Industries(r, stocks)) && i < |list|
    ensures ParentFirst(list, i)
  {
    assert list[i] in list;
    var s := ListedIndustry(r, stocks, list, list[i]);
    hide PlainRows, NoIndustryCollision, Industries, RootID, LeafID, InternalCode, CanonicalForm.Less;
    if list[i].parent.Some? {
      RootBefore(r, list, i, s);
    }
  }

  lemma JoinedParts(x: string, y: string)
    requires Proper(x) && Proper(y) && Proper(x + [NUL] + y)
    ensures ValidKind("SIND") && TrimSpace(NAMESPACE) == NAMESPACE
    ensures ProperParts(["wind", x + [NUL] + y]) && ProperParts(["wind", x, y])
  {
    NamespacePlain();
    hide TrimSpace;
  }

  lemma JoinedSplit(x: string, y: string)
    ensures Split(x + [NUL] + y) == Split(x) + Split(y)
  {
    SplitConcat(x, y);
    assert x + [NUL] + y == x + ([NUL] + y);
  }

  lemma JoinedSeed(x: string, y: string)
    requires Proper(x) && Proper(y) && Proper(x + [NUL] + y)
    ensures Seed("SIND", NAMESPACE, ["wind", x + [NUL] + y]) == Seed("SIND", NAMESPACE, ["wind", x, y])
  {
    hide *;
    var z := x + [NUL] + y;
    var p, q := ["wind", z], ["wind", x, y];
    JoinedParts(x, y);
    DerivationSucceeds("SIND", p);
    DerivationSucceeds("SIND", q);
    JoinedSplit(x, y);
    var front := ["SIND", NAMESPACE, "wind"];
    JoinedPieces(front, x, y);
    assert ["SIND", NAMESPACE] + p == front + [z];
    assert ["SIND", NAMESPACE] + q == front + [x, y];
    SeedsEqualIff("SIND", NAMESPACE, p, "SIND", NAMESPACE, q);
  }

  lemma {:induction false} JoinedPieces(front: seq<string>, x: string, y: string)
    requires Split(x + [NUL] + y) == Split(x) + Split(y)
    ensures Pieces(front + [x + [NUL] + y]) == Pieces(front + [x, y])
  {
    hide Split;
    if front == [] {
      assert [x + [NUL] + y][1..] == [] && [x, y][1..] == [y] && [y][1..] == [];
      assert front + [x + [NUL] + y] == [x + [NUL] + y] && front + [x, y] == [x, y];
      assert Pieces([x + [NUL] + y]) == Split(x) + Split(y) + [];
      assert Pieces([y]) == Split(y) + [] == Split(y);
    } else {
      assert (front + [x + [NUL] + y])[1..] == front[1..] + [x + [NUL] + y];
      assert (front + [x, y])[1..] == front[1..] + [x, y];
      JoinedPieces(front[1..], x, y);
    }
  }

  /** What a separator inside a name does: a first-level name that spells another stock's two levels loses its entry to
    that stock's leaf, and its own leaf has no parent in the list. */
  lemma SeparatorOrphans(r: Rules, a: Row, b: Row, list: seq<Industry>)
    requires Proper(a.l1) && Proper(b.l1) && Proper(b.l2) && a.l1 == b.l1 + [NUL] + b.l2
    requires LeafID(r, a) != RootID(r, b) && LeafID(r, a) != LeafID(r, b) && ListsIndustries(list, Industries(r, [a, b]))
    ensures exists i | 0 <= i < |list| :: !ParentFirst(list, i)
  {
    JoinedSeed(b.l1, b.l2);
    assert RootID(r, a) == LeafID(r, b);
    var m := Industries(r, [a, b]);
    assert [a, b][..1] == [a] && [a][..0] == [];
    hide RootID, LeafID, InternalCode, Ordered;
    assert Industries(r, [a]) == map[][RootID(r, a) := Root(r, a)][LeafID(r, a) := Leaf(r, a)];
    assert m == Industries(r, [a])[RootID(r, b) := Root(r, b)][LeafID(r, b) := Leaf(r, b)];
    assert m[LeafID(r, a)] == Leaf(r, a) && m[RootID(r, a)] == Leaf(r, b);
    hide Industries;
    var i :| 0 <= i < |list| && list[i] == Leaf(r, a);
    forall j | 0 <= j < i ensures !Parent(list[j], list[i]) { assert list[j] in list; }
    assert !ParentFirst(list, i);
  }

  lemma RootBefore(r: Rules, list: seq<Industry>, i: nat, s: Row)
    requires Ordered(list) && i < |list| && list[i] == Leaf(r, s) && Root(r, s) in list
    ensures ParentFirst(list, i)
  {
    hide RootID, LeafID, InternalCode, CanonicalForm.Less;
    var root := Root(r, s);
    var j :| 0 <= j < |list| && list[j] == root;
    assert !Before(list[i], list[j]) && list[i] != list[j];
    assert j < i;
    assert root.path == list[i].path[..1];
    assert Parent(list[j], list[i]);
  }

  // ---- masters ----

  lemma NamesPlain(stocks: seq<Row>, n: string)
    requires PlainRows(stocks) && (ConceptName(stocks, n) || ChainName(stocks, n))
    ensures Plain(n)
  {
    hide SixDigits, Proper;
    if ConceptName(stocks, n) {
      var s :| s in stocks && exists c | c in ConceptsOf(s) :: c.name == n;
      assert PlainRow(s);
    } else {
      var s :| s in stocks && n in ChainsOf(s);
      assert PlainRow(s);
    }
  }

  lemma NameParts(stocks: seq<Row>, n: string)
    requires PlainRows(stocks) && (ConceptName(stocks, n) || ChainName(stocks, n))
    ensures PlainParts([n])
  {
    NamesPlain(stocks, n);
    hide Plain, PlainRows;
  }

  lemma NamesDistinct(r: Rules, stocks: seq<Row>, n: string, m: string)
    requires NoNameCollision(r, stocks)
    ensures ConceptName(stocks, n) && ConceptName(stocks, m) ==>
              NoCollision(r.hash, Seed("SCON", NAMESPACE, [n]), Seed("SCON", NAMESPACE, [m]))
    ensures ChainName(stocks, n) && ChainName(stocks, m) ==>
              NoCollision(r.hash, Seed("SICH", NAMESPACE, [n]), Seed("SICH", NAMESPACE, [m]))
  {
    hide ConceptName, ChainName, Seed, NoCollision;
  }

  lemma MasterKinds(r: Rules, n: string)
    ensures ValidKind("SCON") && ValidKind("SICH")
    ensures ConceptID(r, n) == DeriveID(r, "SCON", [n]) && ChainID(r, n) == DeriveID(r, "SICH", [n])
  {
    hide DeriveID;
  }

  lemma SameConcept(r: Rules, stocks: seq<Row>, n: string, m: string)
    requires PlainRows(stocks) && NoNameCollision(r, stocks) && ConceptName(stocks, n) && ConceptName(stocks, m)
    ensures ConceptID(r, n) == ConceptID(r, m) <==> n == m
  {
    hide *;
    NameParts(stocks, n);
    NameParts(stocks, m);
    NamesDistinct(r, stocks, n, m);
    MasterKinds(r, n);
    MasterKinds(r, m);
    SameDerived(r, "SCON", [n], [m]);
    assert [n][0] == n && [m][0] == m;
  }

  lemma SameChain(r: Rules, stocks: seq<Row>, n: string, m: string)
    requires PlainRows(stocks) && NoNameCollision(r, stocks) && ChainName(stocks, n) && ChainName(stocks, m)
    ensures ChainID(r, n) == ChainID(r, m) <==> n == m
  {
    hide *;
    NameParts(stocks, n);
    NameParts(stocks, m);
    NamesDistinct(r, stocks, n, m);
    MasterKinds(r, n);
    MasterKinds(r, m);
    SameDerived(r, "SICH", [n], [m]);
    assert [n][0] == n && [m][0] == m;
  }

  lemma {:induction false} AddedConcepts(r: Rules, masters: map<string, Master>, concepts: seq<Concept>)
    ensures forall k | k in masters :: k in AddConcepts(r, masters, concepts)
    ensures forall c | c in concepts :: ConceptID(r, c.name) in AddConcepts(r, masters, concepts)
    ensures forall k | k in AddConcepts(r, masters, concepts) ::
              (exists c | c in concepts :: k == ConceptID(r, c.name) && AddConcepts(r, masters, concepts)[k] == Master(k, c.name))
              || (k in masters && AddConcepts(r, masters, concepts)[k] == masters[k])
  {
    hide ConceptID;
    if concepts != [] {
      AddedConcepts(r, masters, concepts[..|concepts| - 1]);
      assert concepts == concepts[..|concepts| - 1] + [concepts[|concepts| - 1]];
    }
  }

  lemma {:induction false} AddedChains(r: Rules, masters: map<string, Master>, chains: seq<string>)
    ensures forall k | k in masters :: k in AddChains(r, masters, chains)
    ensures forall c | c in chains :: ChainID(r, c) in AddChains(r, masters, chains)
    ensures forall k | k in AddChains(r, masters, chains) ::
              (exists c | c in chains :: k == ChainID(r, c) && AddChains(r, masters, chains)[k] == Master(k, c))
              || (k in masters && AddChains(r, masters, chains)[k] == masters[k])
  {
    hide ChainID;
    if chains != [] {
      AddedChains(r, masters, chains[..|chains| - 1]);
      assert chains == chains[..|chains| - 1] + [chains[|chains| - 1]];
    }
  }

  /** The concept masters are exactly the named concepts, each under the id of its name. */
  lemma {:induction false} ConceptRecords(r: Rules, stocks: seq<Row>)
    ensures forall s, c | s in stocks && c in ConceptsOf(s) :: ConceptID(r, c.name) in Concepts(r, stocks)
    ensures forall k | k in Concepts(r, stocks) :: exists n :: ConceptName(stocks, n) && k == ConceptID(r, n) && Concepts(r, stocks)[k] == Master(k, n)
  {
    hide ConceptID, ConceptsOf;
    if stocks != [] {
      var init, last := stocks[..|stocks| - 1], stocks[|stocks| - 1];
      ConceptRecords(r, init);
      AddedConcepts(r, Concepts(r, init), ConceptsOf(last));
      assert stocks == init + [last];
      forall n | ConceptName(init, n) ensures ConceptName(stocks, n) {
        var s :| s in init && exists c | c in ConceptsOf(s) :: c.name == n;
        assert s in stocks;
      }
      assert forall c | c in ConceptsOf(last) :: ConceptName(stocks, c.name) by { assert last in stocks; }
    }
  }

  lemma {:induction false} ChainRecords(r: Rules, stocks: seq<Row>)
    ensures forall s, c | s in stocks && c in ChainsOf(s) :: ChainID(r, c) in Chains(r, stocks)
    ensures forall k | k in Chains(r, stocks) :: exists n :: ChainName(stocks, n) && k == ChainID(r, n) && Chains(r, stocks)[k] == Master(k, n)
  {
    hide ChainID, ChainsOf;
    if stocks != [] {
      var init, last := stocks[..|stocks| - 1], stocks[|stocks| - 1];
      ChainRecords(r, init);
      AddedChains(r, Chains(r, init), ChainsOf(last));
      assert stocks == init + [last];
      forall n | ChainName(init, n) ensures ChainName(stocks, n) {
        var s :| s in init && n in ChainsOf(s);
        assert s in stocks;
      }
      assert forall c | c in ChainsOf(last) :: ChainName(stocks, c) by { assert last in stocks; }
    }
  }

  // ---- links are closed ----

  lemma {:induction false} LinksFrom(r: Rules, resolve: map<string, string>, stocks: seq<Row>)
    ensures forall l | l in IndustryLinks(r, resolve, stocks) ::
              exists s | s in stocks :: l.stockId == StockID(resolve, s) && (l.targetId == RootID(r, s) || l.targetId == LeafID(r, s))
    ensures forall l | l in ConceptLinks(r, resolve, stocks) ::
              exists s, c | s in stocks && c in ConceptsOf(s) :: l.stockId == StockID(resolve, s) && l.targetId == ConceptID(r, c.name)
    ensures forall l | l in ChainLinks(r, resolve, stocks) ::
              exists s, c | s in stocks && c in ChainsOf(s) :: l.stockId == StockID(resolve, s) && l.targetId == ChainID(r, c)
  {
    if stocks != [] {
      var init, last := stocks[..|stocks| - 1], stocks[|stocks| - 1];
      LinksFrom(r, resolve, init);
      assert stocks == init + [last];
      RowLinksFrom(r, resolve, last);
      hide RootID, LeafID, ConceptID, ChainID, ConceptsOf, ChainsOf, StockID, RowIndustryLinks, RowConceptLinks, RowChainLinks;
      assert forall s :: s in stocks <==> s in init || s == last;
    }
  }

  lemma RowLinksFrom(r: Rules, resolve: map<string, string>, s: Row)
    ensures forall l | l in RowIndustryLinks(r, resolve, s) ::
              l.stockId == StockID(resolve, s) && (l.targetId == RootID(r, s) || l.targetId == LeafID(r, s))
    ensures forall l | l in RowConceptLinks(r, StockID(resolve, s), ConceptsOf(s)) ::
              l.stockId == StockID(resolve, s) && exists c | c in ConceptsOf(s) :: l.targetId == ConceptID(r, c.name)
    ensures forall l | l in RowChainLinks(r, StockID(resolve, s), ChainsOf(s)) ::
              l.stockId == StockID(resolve, s) && exists c | c in ChainsOf(s) :: l.targetId == ChainID(r, c)
  {
    hide RootID, LeafID, ConceptID, ChainID, StockID, DeriveID;
    var a, b := RowConceptLinks(r, StockID(resolve, s), ConceptsOf(s)), RowChainLinks(r, StockID(resolve, s), ChainsOf(s));
    forall l | l in a ensures l.stockId == StockID(resolve, s) && exists c | c in ConceptsOf(s) :: l.targetId == ConceptID(r, c.name) {
      var i :| 0 <= i < |a| && a[i] == l;
      assert ConceptsOf(s)[i] in ConceptsOf(s);
    }
    forall l | l in b ensures l.stockId == StockID(resolve, s) && exists c | c in ChainsOf(s) :: l.targetId == ChainID(r, c) {
      var i :| 0 <= i < |b| && b[i] == l;
      assert ChainsOf(s)[i] in ChainsOf(s);
    }
  }

  predicate HasIndustry(list: seq<Industry>, id: string) { exists x | x in list :: x.id == id }

  predicate HasMaster(list: seq<Master>, id: string) { exists x | x in list :: x.id == id }

  predicate HasStock(ids: seq<string>, id: string) { id in ids }

  lemma StockListed(resolve: map<string, string>, stocks: seq<Row>, s: Row)
    requires s in stocks
    ensures StockID(resolve, s) in StockIDs(resolve, stocks)
  {
    hide StockID;
    var i :| 0 <= i < |stocks| && stocks[i] == s;
    assert StockIDs(resolve, stocks)[i] == StockID(resolve, s);
  }

  /** Both industries of every stock stay in the map, whatever is inserted later. */
  lemma {:induction false} IndustriesThere(r: Rules, stocks: seq<Row>, s: Row)
    requires s in stocks
    ensures RootID(r, s) in Industries(r, stocks) && LeafID(r, s) in Industries(r, stocks)
  {
    hide RootID, LeafID, Root, Leaf;
    var init := stocks[..|stocks| - 1];
    assert stocks == init + [stocks[|stocks| - 1]];
    if s in init { IndustriesThere(r, init, s); }
  }

  lemma IndustryLinksClosed(r: Rules, resolve: map<string, string>, stocks: seq<Row>, list: seq<Industry>)
    requires ListsIndustries(list, Industries(r, stocks))
    ensures forall l | l in IndustryLinks(r, resolve, stocks) :: HasStock(StockIDs(resolve, stocks), l.stockId) && HasIndustry(list, l.targetId)
  {
    LinksFrom(r, resolve, stocks);
    IndustriesKeyed(r, stocks);
    hide Industries, IndustryLinks, ConceptLinks, ChainLinks, StockID, StockIDs, RootID, LeafID, Ordered;
    var m := Industries(r, stocks);
    forall l | l in IndustryLinks(r, resolve, stocks) ensures HasStock(StockIDs(resolve, stocks), l.stockId) && HasIndustry(list, l.targetId) {
      var s :| s in stocks && l.stockId == StockID(resolve, s) && (l.targetId == RootID(r, s) || l.targetId == LeafID(r, s));
      StockListed(resolve, stocks, s);
      IndustriesThere(r, stocks, s);
      assert m[l.targetId] in list;
    }
  }

  lemma MasterLinksClosed(r: Rules, resolve: map<string, string>, stocks: seq<Row>, concepts: seq<Master>, chains: seq<Master>)
    requires ListsMasters(concepts, Concepts(r, stocks)) && ListsMasters(chains, Chains(r, stocks))
    ensures forall l | l in ConceptLinks(r, resolve, stocks) :: HasStock(StockIDs(resolve, stocks), l.stockId) && HasMaster(concepts, l.targetId)
    ensures forall l | l in ChainLinks(r, resolve, stocks) :: HasStock(StockIDs(resolve, stocks), l.stockId) && HasMaster(chains, l.targetId)
  {
    LinksFrom(r, resolve, stocks);
    ConceptRecords(r, stocks);
    ChainRecords(r, stocks);
    ConceptsKeyed(r, stocks);
    ChainsKeyed(r, stocks);
    hide Concepts, Chains, IndustryLinks, ConceptLinks, ChainLinks, StockID, StockIDs, RootID, LeafID, ConceptID, ChainID, ConceptsOf, ChainsOf,
      ConceptName, ChainName, CanonicalForm.Less;
    forall l | l in ConceptLinks(r, resolve, stocks) ensures HasStock(StockIDs(resolve, stocks), l.stockId) && HasMaster(concepts, l.targetId) {
      var s, c :| s in stocks && c in ConceptsOf(s) && l.stockId == StockID(resolve, s) && l.targetId == ConceptID(r, c.name);
      StockListed(resolve, stocks, s);
      assert Concepts(r, stocks)[l.targetId] in concepts;
    }
    forall l | l in ChainLinks(r, resolve, stocks) ensures HasStock(StockIDs(resolve, stocks), l.stockId) && HasMaster(chains, l.targetId) {
      var s, c :| s in stocks && c in ChainsOf(s) && l.stockId == StockID(resolve, s) && l.targetId == ChainID(r, c);
      StockListed(resolve, stocks, s);
      assert Chains(r, stocks)[l.targetId] in chains;
    }
  }

  /** Every link joins a published stock to an entry of the published master list. */
  lemma LinksClosed(r: Rules, resolve: map<string, string>, stocks: seq<Row>, p: Publication)
    requires Publishes(r, resolve, stocks, p)
    ensures forall l | l in p.industryLinks :: HasStock(p.stockIds, l.stockId) && HasIndustry(p.industries, l.targetId)
    ensures forall l | l in p.conceptLinks :: HasStock(p.stockIds, l.stockId) && HasMaster(p.concepts, l.targetId)
    ensures forall l | l in p.chainLinks :: HasStock(p.stockIds, l.stockId) && HasMaster(p.chains, l.targetId)
  {
    IndustryLinksClosed(r, resolve, stocks, p.industries);
    MasterLinksClosed(r, resolve, stocks, p.concepts, p.chains);
    hide HasIndustry, HasMaster, HasStock, ListsIndustries, ListsMasters;
  }

  // ---- links are pairwise distinct ----

  predicate DistinctLinks(links: seq<Link>) {
    forall i, j | 0 <= i < j < |links| :: links[i].stockId != links[j].stockId || links[i].targetId != links[j].targetId
  }

  lemma DistinctJoined(a: seq<Link>, b: seq<Link>, own: string)
    requires DistinctLinks(a) && DistinctLinks(b)
    requires (forall l | l in a :: l.stockId != own) && forall l | l in b :: l.stockId == own
    ensures DistinctLinks(a + b)
  {
    var c := a + b;
    forall i, j | 0 <= i < j < |c| ensures c[i].stockId != c[j].stockId || c[i].targetId != c[j].targetId {
      if i < |a| <= j {
        assert c[i] in a && c[j] in b;
      }
    }
  }

  lemma RowLinksDistinct(r: Rules, resolve: map<string, string>, stocks: seq<Row>, s: Row)
    requires PlainRows(stocks) && NoIndustryCollision(r, stocks) && NoNameCollision(r, stocks) && s in stocks
    requires Bijective(AllConcepts(stocks))
    ensures DistinctLinks(RowIndustryLinks(r, resolve, s))
    ensures DistinctLinks(RowConceptLinks(r, StockID(resolve, s), ConceptsOf(s)))
    ensures DistinctLinks(RowChainLinks(r, StockID(resolve, s), ChainsOf(s)))
  {
    RowIndustries(r, stocks, s, s);
    assert PlainRow(s);
    hide PlainRows, NoIndustryCollision, NoNameCollision, RootID, LeafID, ConceptID, ChainID, DeriveID, StockID, SixDigits, Proper, Bijective;
    var cs, hs := ConceptsOf(s), ChainsOf(s);
    forall i, j | 0 <= i < j < |cs| ensures ConceptID(r, cs[i].name) != ConceptID(r, cs[j].name) {
      assert ConceptName(stocks, cs[i].name) && ConceptName(stocks, cs[j].name);
      SameConcept(r, stocks, cs[i].name, cs[j].name);
      InAllConcepts(stocks, s, cs[i]);
      InAllConcepts(stocks, s, cs[j]);
      NamesDiffer(AllConcepts(stocks), cs[i], cs[j]);
    }
    forall i, j | 0 <= i < j < |hs| ensures ChainID(r, hs[i]) != ChainID(r, hs[j]) {
      assert ChainName(stocks, hs[i]) && ChainName(stocks, hs[j]);
      SameChain(r, stocks, hs[i], hs[j]);
    }
  }

  lemma NamesDiffer(all: seq<Concept>, c: Concept, d: Concept)
    requires Bijective(all) && c in all && d in all && c.code != d.code
    ensures c.name != d.name
  {
  }

  lemma {:induction false} InAllConcepts(stocks: seq<Row>, s: Row, c: Concept)
    requires s in stocks && c in ConceptsOf(s)
    ensures c in AllConcepts(stocks)
  {
    hide ConceptsOf;
    var init, last := stocks[..|stocks| - 1], stocks[|stocks| - 1];
    assert stocks == init + [last];
    if s in init { InAllConcepts(init, s, c); }
  }

  lemma OtherStocks(resolve: map<string, string>, stocks: seq<Row>, n: nat)
    requires n < |stocks| && Distinct(Symbols(stocks)) && Injective(resolve, stocks)
    ensures forall s | s in stocks[..n] :: StockID(resolve, s) != StockID(resolve, stocks[n])
  {
    hide StockID;
    forall s | s in stocks[..n] ensures StockID(resolve, s) != StockID(resolve, stocks[n]) {
      var i :| 0 <= i < n && stocks[i] == s;
      assert Symbols(stocks)[i] != Symbols(stocks)[n];
      assert stocks[i] in stocks && stocks[n] in stocks;
    }
  }

  /** The links of the next stock differ from all links so far. */
  lemma NextLinksDistinct(r: Rules, resolve: map<string, string>, stocks: seq<Row>, s: Row)
    requires forall t | t in stocks :: StockID(resolve, t) != StockID(resolve, s)
    requires DistinctLinks(IndustryLinks(r, resolve, stocks)) && DistinctLinks(ConceptLinks(r, resolve, stocks)) && DistinctLinks(ChainLinks(r, resolve, stocks))
    requires DistinctLinks(RowIndustryLinks(r, resolve, s)) && DistinctLinks(RowConceptLinks(r, StockID(resolve, s), ConceptsOf(s)))
    requires DistinctLinks(RowChainLinks(r, StockID(resolve, s), ChainsOf(s)))
    ensures DistinctLinks(IndustryLinks(r, resolve, stocks + [s])) && DistinctLinks(ConceptLinks(r, resolve, stocks + [s]))
    ensures DistinctLinks(ChainLinks(r, resolve, stocks + [s]))
  {
    LinksFrom(r, resolve, stocks);
    RowLinksFrom(r, resolve, s);
    assert (stocks + [s])[..|stocks|] == stocks;
    hide DistinctLinks, StockID, RowIndustryLinks, RowConceptLinks, RowChainLinks, RootID, LeafID, ConceptID, ChainID, ConceptsOf, ChainsOf;
    var own := StockID(resolve, s);
    DistinctJoined(IndustryLinks(r, resolve, stocks), RowIndustryLinks(r, resolve, s), own);
    DistinctJoined(ConceptLinks(r, resolve, stocks), RowConceptLinks(r, own, ConceptsOf(s)), own);
    DistinctJoined(ChainLinks(r, resolve, stocks), RowChainLinks(r, own, ChainsOf(s)), own);
  }

  lemma NoLinksDistinct(r: Rules, resolve: map<string, string>)
    ensures DistinctLinks(IndustryLinks(r, resolve, [])) && DistinctLinks(ConceptLinks(r, resolve, [])) && DistinctLinks(ChainLinks(r, resolve, []))
  {
  }

  lemma {:induction false} PrefixLinksDistinct(r: Rules, resolve: map<string, string>, stocks: seq<Row>, n: nat)
    requires n <= |stocks| && PlainRows(stocks) && NoIndustryCollision(r, stocks) && NoNameCollision(r, stocks)
    requires Bijective(AllConcepts(stocks)) && Distinct(Symbols(stocks)) && Injective(resolve, stocks)
    ensures DistinctLinks(IndustryLinks(r, resolve, stocks[..n]))
    ensures DistinctLinks(ConceptLinks(r, resolve, stocks[..n]))
    ensures DistinctLinks(ChainLinks(r, resolve, stocks[..n]))
  {
    hide *;
    if n == 0 {
      NoLinksDistinct(r, resolve);
      assert stocks[..0] == [];
    } else {
      PrefixLinksDistinct(r, resolve, stocks, n - 1);
      RowLinksDistinct(r, resolve, stocks, stocks[n - 1]);
      OtherStocks(resolve, stocks, n - 1);
      NextLinksDistinct(r, resolve, stocks[..n - 1], stocks[n - 1]);
      assert stocks[..n] == stocks[..n - 1] + [stocks[n - 1]];
    }
  }

  /** No two links of a kind join the same stock and target. */
  lemma LinksDistinct(r: Rules, resolve: map<string, string>, source: Source, p: Publication)
    requires ValidSource(source) && PlainRows(source.stocks) && Injective(resolve, source.stocks)
    requires NoIndustryCollision(r, source.stocks) && NoNameCollision(r, source.stocks) && Publishes(r, resolve, source.stocks, p)
    ensures DistinctLinks(p.industryLinks) && DistinctLinks(p.conceptLinks) && DistinctLinks(p.chainLinks)
  {
    PrefixLinksDistinct(r, resolve, source.stocks, |source.stocks|);
    assert source.stocks[..|source.stocks|] == source.stocks;
    hide PlainRows, NoIndustryCollision, NoNameCollision, DistinctLinks, ListsIndustries, ListsMasters;
  }

  // ---- the ids of the links ----

  /** The id of the link is derived from its proper ends. */
  predicate DerivedLink(r: Rules, kind: string, l: Link) {
    l.id == DeriveID(r, kind, [l.stockId, l.targetId]) && PlainParts([l.stockId, l.targetId])
  }

  predicate DerivedLinks(r: Rules, kind: string, links: seq<Link>) { forall l | l in links :: DerivedLink(r, kind, l) }

  ghost predicate NoLinkCollision(r: Rules, kind: string, links: seq<Link>) {
    forall l, m | l in links && m in links ::
      NoCollision(r.hash, Seed(kind, NAMESPACE, [l.stockId, l.targetId]), Seed(kind, NAMESPACE, [m.stockId, m.targetId]))
  }

  predicate DistinctIDs(links: seq<Link>) { forall i, j | 0 <= i < j < |links| :: links[i].id != links[j].id }

  lemma PairPlain(a: string, b: string)
    requires Plain(a) && Plain(b)
    ensures PlainParts([a, b])
  {
    hide Plain;
  }

  lemma NewLinkDerived(r: Rules, kind: string, stockId: string, target: string, parts: seq<string>)
    requires UuidGenerator(r.hash) && Is(stockId, "STK")
    requires kind in {"SIL", "SCL", "SICL"} && target in {"SIND", "SCON", "SICH"}
    ensures DerivedLink(r, kind, NewLink(r, kind, stockId, DeriveID(r, target, parts)))
  {
    var id := DeriveID(r, target, parts);
    assert ValidKind(target) && id[|target|..] == r.hash(Seed(target, NAMESPACE, parts));
    CanonicalPlain(stockId, "STK");
    CanonicalPlain(id, target);
    hide TrimSpace, NulFree, Is, Seed, PlainParts;
    PairPlain(stockId, id);
  }

  lemma RowLinksDerived(r: Rules, resolve: map<string, string>, s: Row)
    requires UuidGenerator(r.hash) && Is(StockID(resolve, s), "STK")
    ensures DerivedLinks(r, "SIL", RowIndustryLinks(r, resolve, s))
    ensures DerivedLinks(r, "SCL", RowConceptLinks(r, StockID(resolve, s), ConceptsOf(s)))
    ensures DerivedLinks(r, "SICL", RowChainLinks(r, StockID(resolve, s), ChainsOf(s)))
  {
    var own := StockID(resolve, s);
    NewLinkDerived(r, "SIL", own, "SIND", RootParts(s));
    NewLinkDerived(r, "SIL", own, "SIND", LeafParts(s));
    forall c: string ensures DerivedLink(r, "SCL", NewLink(r, "SCL", own, ConceptID(r, c))) && DerivedLink(r, "SICL", NewLink(r, "SICL", own, ChainID(r, c))) {
      NewLinkDerived(r, "SCL", own, "SCON", [c]);
      NewLinkDerived(r, "SICL", own, "SICH", [c]);
    }
    hide DerivedLink, NewLink, StockID, ConceptID, ChainID, UuidGenerator, Is;
  }

  lemma {:induction false} LinksDerived(r: Rules, resolve: map<string, string>, stocks: seq<Row>)
    requires UuidGenerator(r.hash) && Resolved(resolve, stocks)
    ensures DerivedLinks(r, "SIL", IndustryLinks(r, resolve, stocks))
    ensures DerivedLinks(r, "SCL", ConceptLinks(r, resolve, stocks)) && DerivedLinks(r, "SICL", ChainLinks(r, resolve, stocks))
  {
    hide DerivedLink, StockID, Is, UuidGenerator, RowIndustryLinks, RowConceptLinks, RowChainLinks;
    if stocks != [] {
      var init, last := stocks[..|stocks| - 1], stocks[|stocks| - 1];
      assert stocks == init + [last] && last in stocks;
      LinksDerived(r, resolve, init);
      RowLinksDerived(r, resolve, last);
    }
  }

  /** Links between different pairs have different ids. */
  lemma DistinctLinkIDs(r: Rules, kind: string, links: seq<Link>)
    requires ValidKind(kind) && DerivedLinks(r, kind, links) && NoLinkCollision(r, kind, links) && DistinctLinks(links)
    ensures DistinctIDs(links)
  {
    hide PlainParts, ValidKind, Seed, NoCollision, DeriveID;
    forall i, j | 0 <= i < j < |links| ensures links[i].id != links[j].id {
      var l, m := links[i], links[j];
      assert l in links && m in links;
      SameDerived(r, kind, [l.stockId, l.targetId], [m.stockId, m.targetId]);
      assert [l.stockId, l.targetId][0] == l.stockId && [m.stockId, m.targetId][0] == m.stockId;
      assert [l.stockId, l.targetId][1] == l.targetId && [m.stockId, m.targetId][1] == m.targetId;
    }
  }

  lemma LinkKinds()
    ensures ValidKind("SIL") && ValidKind("SCL") && ValidKind("SICL")
  {
  }

  lemma PublishedLinks(r: Rules, resolve: map<string, string>, stocks: seq<Row>, p: Publication)
    requires Publishes(r, resolve, stocks, p)
    ensures p.industryLinks == IndustryLinks(r, resolve, stocks) && p.conceptLinks == ConceptLinks(r, resolve, stocks)
    ensures p.chainLinks == ChainLinks(r, resolve, stocks)
  {
    hide ListsIndustries, ListsMasters;
  }

  /** In a publication no two links of a kind have one id. */
  lemma PublishedLinkIDs(r: Rules, resolve: map<string, string>, source: Source, p: Publication)
    requires ValidSource(source) && PlainRows(source.stocks) && Injective(resolve, source.stocks) && Resolved(resolve, source.stocks)
    requires NoIndustryCollision(r, source.stocks) && NoNameCollision(r, source.stocks) && Publishes(r, resolve, source.stocks, p)
    requires UuidGenerator(r.hash) && NoLinkCollision(r, "SIL", p.industryLinks)
    requires NoLinkCollision(r, "SCL", p.conceptLinks) && NoLinkCollision(r, "SICL", p.chainLinks)
    ensures DistinctIDs(p.industryLinks) && DistinctIDs(p.conceptLinks) && DistinctIDs(p.chainLinks)
  {
    hide *;
    LinksDistinct(r, resolve, source, p);
    LinksDerived(r, resolve, source.stocks);
    PublishedLinks(r, resolve, source.stocks, p);
    LinkKinds();
    DistinctLinkIDs(r, "SIL", p.industryLinks);
    DistinctLinkIDs(r, "SCL", p.conceptLinks);
    DistinctLinkIDs(r, "SICL", p.chainLinks);
  }

  predicate Linked(links: seq<Link>, stockId: string, target: string) { exists l | l in links :: l.stockId == stockId && l.targetId == target }

  /** Every stock is linked to its root and its leaf industry, which differ, and to no other industry. */
  lemma RootAndLeaf(r: Rules, resolve: map<string, string>, source: Source, p: Publication, s: Row)
    requires ValidSource(source) && PlainRows(source.stocks) && Injective(resolve, source.stocks) && s in source.stocks
    requires NoIndustryCollision(r, source.stocks) && Publishes(r, resolve, source.stocks, p)
    ensures RootID(r, s) != LeafID(r, s)
    ensures forall target :: Linked(p.industryLinks, StockID(resolve, s), target) <==> target == RootID(r, s) || target == LeafID(r, s)
  {
    hide *;
    RowIndustries(r, source.stocks, s, s);
    var links, own := p.industryLinks, StockID(resolve, s);
    LinkedBoth(r, resolve, source.stocks, p, s);
    forall target | Linked(links, own, target) ensures target == RootID(r, s) || target == LeafID(r, s) {
      OnlyOwn(r, resolve, source, p, s, target);
    }
  }

  lemma LinkedBoth(r: Rules, resolve: map<string, string>, stocks: seq<Row>, p: Publication, s: Row)
    requires Publishes(r, resolve, stocks, p) && s in stocks
    ensures Linked(p.industryLinks, StockID(resolve, s), RootID(r, s)) && Linked(p.industryLinks, StockID(resolve, s), LeafID(r, s))
  {
    LinksThere(r, resolve, stocks, s);
    hide RootID, LeafID, StockID, IndustryLinks, ListsIndustries, ListsMasters;
  }

  lemma OnlyOwn(r: Rules, resolve: map<string, string>, source: Source, p: Publication, s: Row, target: string)
    requires ValidSource(source) && Injective(resolve, source.stocks) && s in source.stocks
    requires Publishes(r, resolve, source.stocks, p) && Linked(p.industryLinks, StockID(resolve, s), target)
    ensures target == RootID(r, s) || target == LeafID(r, s)
  {
    LinksFrom(r, resolve, source.stocks);
    hide RootID, LeafID, StockID, IndustryLinks, ListsIndustries, ListsMasters, ValidRow, Bijective;
    var l :| l in p.industryLinks && l.stockId == StockID(resolve, s) && l.targetId == target;
    var t :| t in source.stocks && l.stockId == StockID(resolve, t) && (l.targetId == RootID(r, t) || l.targetId == LeafID(r, t));
    OneRow(source.stocks, s, t);
  }

  lemma OneRow(stocks: seq<Row>, s: Row, t: Row)
    requires Distinct(Symbols(stocks)) && s in stocks && t in stocks && Symbol(s) == Symbol(t)
    ensures s == t
  {
    var i :| 0 <= i < |stocks| && stocks[i] == s;
    var j :| 0 <= j < |stocks| && stocks[j] == t;
    assert Symbols(stocks)[i] == Symbols(stocks)[j];
  }

  lemma {:induction false} LinksThere(r: Rules, resolve: map<string, string>, stocks: seq<Row>, s: Row)
    requires s in stocks
    ensures exists l | l in IndustryLinks(r, resolve, stocks) :: l.stockId == StockID(resolve, s) && l.targetId == RootID(r, s)
    ensures exists l | l in IndustryLinks(r, resolve, stocks) :: l.stockId == StockID(resolve, s) && l.targetId == LeafID(r, s)
  {
    hide RootID, LeafID, StockID, DeriveID;
    var init, last := stocks[..|stocks| - 1], stocks[|stocks| - 1];
    assert stocks == init + [last];
    if s in init {
      LinksThere(r, resolve, init, s);
    } else {
      var row := RowIndustryLinks(r, resolve, s);
      assert row[0] in row && row[1] in row;
      assert row[0].targetId == RootID(r, s) && row[1].targetId == LeafID(r, s);
    }
  }

  /** Two concepts of the whole input share a code exactly when they share a name, exactly when they share a master entry. */
  lemma ConceptIdentity(r: Rules, source: Source, c: Concept, d: Concept, s: Row, t: Row)
    requires ValidSource(source) && PlainRows(source.stocks) && NoNameCollision(r, source.stocks)
    requires s in source.stocks && c in ConceptsOf(s) && t in source.stocks && d in ConceptsOf(t)
    ensures c.code == d.code <==> c.name == d.name
    ensures ConceptID(r, c.name) == ConceptID(r, d.name) <==> c.code == d.code
  {
    InAllConcepts(source.stocks, s, c);
    InAllConcepts(source.stocks, t, d);
    assert ConceptName(source.stocks, c.name) && ConceptName(source.stocks, d.name);
    hide PlainRows, NoNameCollision, ConceptID, ValidRow;
    SameConcept(r, source.stocks, c.name, d.name);
  }
}
