/** Derived object identities: a registered prefix followed by the UUID of a joined seed. */
module Identity {

  const KINDS: set<string> := {
    "GRD", "MED", "ENT", "IND", "CON", "CND", "ICH", "ERL", "COU", "SUB", "MIN", "INS", "GPD", "GPR", "MEC", "MCD",
    "STK", "SDQ", "SIND", "SCON", "SICH", "SIL", "SCL", "SICL", "COM", "CIL", "REG", "ORG", "OCA", "OFN", "ODT", "ODL",
    "RAW", "EVD", "EVC", "RCL", "CRL", "EEL", "EAC", "EAS", "EVT", "EPR", "IGE", "OMB", "SRC", "RPT", "RPE", "RPA"
  }

  const NUL := '\U{0}'

  /** Go's `unicode.IsSpace`. */
  predicate IsSpace(c: char) {
    var v := c as int;
    9 <= v <= 13 || v == 0x20 || v == 0x85 || v == 0xA0 || v == 0x1680 || 0x2000 <= v <= 0x200A
    || v == 0x2028 || v == 0x2029 || v == 0x202F || v == 0x205F || v == 0x3000
  }

  function TrimSpace(s: string): (t: string)
    ensures forall c | c in t :: c in s
    decreases |s|
  {
    if s == [] then []
    else if IsSpace(s[0]) then TrimSpace(s[1..])
    else if IsSpace(s[|s| - 1]) then TrimSpace(s[..|s| - 1])
    else s
  }

  /** A text without space at its ends is left alone. */
  lemma TrimPlain(s: string)
    requires s != [] && !IsSpace(s[0]) && !IsSpace(s[|s| - 1])
    ensures TrimSpace(s) == s
  {
  }

  /** Trimming takes away what is space at both ends and nothing else. */
  lemma {:induction false} TrimMeaning(s: string) returns (front: string, back: string)
    ensures s == front + TrimSpace(s) + back && forall c | c in front + back :: IsSpace(c)
    ensures var t := TrimSpace(s); t != "" ==> !IsSpace(t[0]) && !IsSpace(t[|t| - 1])
    decreases |s|
  {
    front, back := "", "";
    if s == "" {
    } else if IsSpace(s[0]) {
      front, back := TrimMeaning(s[1..]);
      front := [s[0]] + front;
      assert s == [s[0]] + s[1..];
    } else if IsSpace(s[|s| - 1]) {
      front, back := TrimMeaning(s[..|s| - 1]);
      back := back + [s[|s| - 1]];
      assert s == s[..|s| - 1] + [s[|s| - 1]];
    }
  }

  lemma BlankMeans(s: string)
    ensures TrimSpace(s) == "" <==> forall c | c in s :: IsSpace(c)
  {
    var front, back := TrimMeaning(s);
    hide TrimSpace, IsSpace;
    if TrimSpace(s) != "" { assert TrimSpace(s)[0] in s; }
    if TrimSpace(s) == "" {
      assert s == front + back;
    }
  }

  /** `strings.Join` with the NUL character. */
  function Join(parts: seq<string>): string {
    if parts == [] then ""
    else if |parts| == 1 then parts[0]
    else parts[0] + ([NUL] + Join(parts[1..]))
  }

  predicate NulFree(s: string) { NUL !in s }

  /** `strings.Split` at NUL: the inverse the identity scheme relies on. */
  function Split(s: string): (parts: seq<string>)
    ensures parts != []
  {
    if s == [] then [""]
    else if s[0] == NUL then [""] + Split(s[1..])
    else var rest := Split(s[1..]); [[s[0]] + rest[0]] + rest[1..]
  }

  // ---- prefixes and identities ----

  predicate UpperCase(s: string) { forall i | 0 <= i < |s| :: 'A' <= s[i] <= 'Z' }

  /** `prefix`: the kind's wire prefix, or an error. */
  predicate ValidKind(kind: string) { kind in KINDS && 2 <= |kind| <= 8 && UpperCase(kind) }

  predicate LowerHex(c: char) { '0' <= c <= '9' || 'a' <= c <= 'f' }

  /** A canonical lowercase UUID that is not the nil UUID. */
  predicate CanonicalUuid(s: string) {
    && |s| == 36
    && (forall i | 0 <= i < 36 :: if i in {8, 13, 18, 23} then s[i] == '-' else LowerHex(s[i]))
    && (exists i | 0 <= i < 36 :: s[i] != '-' && s[i] != '0')
  }

  /** `Is`: the value parses as a canonical identity of the kind. */
  predicate Is(value: string, kind: string) {
    ValidKind(kind) && kind <= value && CanonicalUuid(value[|kind|..])
  }

  datatype Derived = Derived(id: string) | InvalidPrefix | InvalidSeed

  /** The name-based UUID generator: whatever the seed, it writes a canonical UUID. */
  ghost predicate UuidGenerator(hash: string -> string) {
    forall s :: CanonicalUuid(hash(s))
  }

  /** The generator has no collision on these two seeds. */
  predicate NoCollision(hash: string -> string, s: string, t: string) {
    hash(s) == hash(t) ==> s == t
  }

  function Trimmed(parts: seq<string>): (r: seq<string>)
    ensures |r| == |parts|
  {
    seq(|parts|, i requires 0 <= i < |parts| => TrimSpace(parts[i]))
  }

  /** When `Derive` accepts its arguments. */
  predicate Derivable(kind: string, namespace: string, parts: seq<string>) {
    && ValidKind(kind) && TrimSpace(namespace) != "" && parts != []
    && forall i | 0 <= i < |parts| :: TrimSpace(parts[i]) != ""
  }

  function Seed(kind: string, namespace: string, parts: seq<string>): string {
    Join([kind, TrimSpace(namespace)] + Trimmed(parts))
  }

  method Derive(hash: string -> string, kind: string, namespace: string, parts: seq<string>) returns (r: Derived)
    ensures r.Derived? <==> Derivable(kind, namespace, parts)
    ensures r.Derived? ==> r.id == kind + hash(Seed(kind, namespace, parts))
    ensures r.InvalidPrefix? <==> !ValidKind(kind)
  {
    if !ValidKind(kind) {
      return InvalidPrefix;
    }
    if TrimSpace(namespace) == "" || parts == [] {
      return InvalidSeed;
    }
    var seedParts := [kind, TrimSpace(namespace)];
    for i := 0 to |parts|
      invariant seedParts == [kind, TrimSpace(namespace)] + Trimmed(parts)[..i]
      invariant forall j | 0 <= j < i :: TrimSpace(parts[j]) != ""
    {
      var part := TrimSpace(parts[i]);
      if part == "" {
        return InvalidSeed;
      }
      seedParts := seedParts + [part];
    }
    assert Trimmed(parts)[..|parts|] == Trimmed(parts);
    return Derived(kind + hash(Join(seedParts)));
  }

  // ---- the seed is readable exactly when no part holds a NUL ----

  lemma {:induction false} SplitHead(a: string, rest: string)
    requires NulFree(a)
    ensures Split(a) == [a]
    ensures Split(a + ([NUL] + rest)) == [a] + Split(rest)
  {
    if a == [] {
      assert a + ([NUL] + rest) == [NUL] + rest;
      assert ([NUL] + rest)[1..] == rest;
    } else {
      assert (a + ([NUL] + rest))[1..] == a[1..] + ([NUL] + rest);
      SplitHead(a[1..], rest);
      assert [a[0]] + a[1..] == a;
    }
  }

  lemma {:induction false} SplitPartsNulFree(s: string)
    ensures forall i | 0 <= i < |Split(s)| :: NulFree(Split(s)[i])
  {
    if s != [] { SplitPartsNulFree(s[1..]); }
  }

  /** Joining can be undone exactly on lists of NUL-free parts. */
  lemma {:induction false} SplitInvertsJoin(parts: seq<string>)
    requires parts != []
    ensures Split(Join(parts)) == parts <==> forall i | 0 <= i < |parts| :: NulFree(parts[i])
  {
    SplitPartsNulFree(Join(parts));
    if forall i | 0 <= i < |parts| :: NulFree(parts[i]) {
      if |parts| == 1 {
        SplitHead(parts[0], "");
        assert parts == [parts[0]];
      } else {
        SplitHead(parts[0], Join(parts[1..]));
        SplitInvertsJoin(parts[1..]);
        assert parts == [parts[0]] + parts[1..];
      }
    }
  }

  predicate NulFreeParts(namespace: string, parts: seq<string>) {
    NulFree(namespace) && forall i | 0 <= i < |parts| :: NulFree(parts[i])
  }

  /** Seeds are injective in kind, namespace and part list, for lists of every length. */
  lemma SeedInjective(k: string, n: string, p: seq<string>, l: string, m: string, q: seq<string>)
    requires Derivable(k, n, p) && Derivable(l, m, q) && NulFreeParts(n, p) && NulFreeParts(m, q)
    ensures Seed(k, n, p) == Seed(l, m, q) <==> k == l && TrimSpace(n) == TrimSpace(m) && Trimmed(p) == Trimmed(q)
  {
    var a, b := [k, TrimSpace(n)] + Trimmed(p), [l, TrimSpace(m)] + Trimmed(q);
    SplitInvertsJoin(a);
    SplitInvertsJoin(b);
    if a == b {
      assert k == a[0] && l == b[0] && TrimSpace(n) == a[1] && TrimSpace(m) == b[1];
      assert Trimmed(p) == a[2..] && Trimmed(q) == b[2..];
    }
  }

  // ---- what equal seeds mean in general ----

  /** The pieces between the separators of all parts. */
  function Pieces(parts: seq<string>): seq<string> {
    if parts == [] then [] else Split(parts[0]) + Pieces(parts[1..])
  }

  lemma Regrouped<T>(a: seq<T>, b: seq<T>, c: seq<T>)
    ensures a + (b + c) == a + b + c
  {
  }

  lemma {:induction false} SplitConcat(a: string, rest: string)
    ensures Split(a + ([NUL] + rest)) == Split(a) + Split(rest)
  {
    var s := a + ([NUL] + rest);
    if a == [] {
      assert s == [NUL] + rest && s[1..] == rest;
    } else {
      assert s[1..] == a[1..] + ([NUL] + rest);
      SplitConcat(a[1..], rest);
      var x, y := Split(a[1..]), Split(rest);
      assert s[0] == a[0] && Split(s[1..]) == x + y;
      if a[0] == NUL {
        Regrouped([""], x, y);
      } else {
        assert (x + y)[0] == x[0] && (x + y)[1..] == x[1..] + y;
        Regrouped([[a[0]] + x[0]], x[1..], y);
      }
    }
  }

  lemma {:induction false} SplitJoin(parts: seq<string>)
    requires parts != []
    ensures Split(Join(parts)) == Pieces(parts)
  {
    if |parts| == 1 {
      assert parts[1..] == [] && Split(parts[0]) + [] == Split(parts[0]);
    } else {
      SplitConcat(parts[0], Join(parts[1..]));
      SplitJoin(parts[1..]);
    }
  }

  lemma {:induction false} JoinSplit(s: string)
    ensures Join(Split(s)) == s
  {
    if s != [] {
      var rest := Split(s[1..]);
      JoinSplit(s[1..]);
      assert s == [s[0]] + s[1..];
      if s[0] == NUL {
        assert ([""] + rest)[1..] == rest;
        assert "" + ([NUL] + s[1..]) == s;
      } else {
        var t := [[s[0]] + rest[0]] + rest[1..];
        assert t[1..] == rest[1..];
        assert |rest| > 1 ==> [s[0]] + rest[0] + ([NUL] + Join(rest[1..])) == [s[0]] + (rest[0] + ([NUL] + Join(rest[1..])));
      }
    }
  }

  /** For all arguments that `Derive` accepts: two seeds are equal if and only if kind, namespace and parts have the
    same pieces between separators. */
  lemma SeedsEqualIff(k: string, n: string, p: seq<string>, l: string, m: string, q: seq<string>)
    requires Derivable(k, n, p) && Derivable(l, m, q)
    ensures Seed(k, n, p) == Seed(l, m, q) <==>
            Pieces([k, TrimSpace(n)] + Trimmed(p)) == Pieces([l, TrimSpace(m)] + Trimmed(q))
  {
    var a, b := [k, TrimSpace(n)] + Trimmed(p), [l, TrimSpace(m)] + Trimmed(q);
    SplitJoin(a);
    SplitJoin(b);
    JoinSplit(Join(a));
    JoinSplit(Join(b));
    hide Join, Split, Pieces;
  }

  /** The NUL condition is needed: two different part lists with the same seed. */
  lemma NulPartsCollide()
    ensures Derivable("STK", "n", [['a', NUL, 'b']]) && Derivable("STK", "n", ["a", "b"])
    ensures Trimmed([['a', NUL, 'b']]) != Trimmed(["a", "b"])
    ensures Seed("STK", "n", [['a', NUL, 'b']]) == Seed("STK", "n", ["a", "b"])
  {
    var x, y := [['a', NUL, 'b']], ["a", "b"];
    assert TrimSpace("n") == "n" && TrimSpace("a") == "a" && TrimSpace("b") == "b" && TrimSpace(x[0]) == x[0];
    assert Trimmed(x) == x && Trimmed(y) == y;
    var s, t := ["STK", "n"] + x, ["STK", "n"] + y;
    assert s[1..] == ["n"] + x && s[1..][1..] == x;
    assert t[1..] == ["n"] + y && t[1..][1..] == y && y[1..] == ["b"];
    assert Join(x) == Join(y) == ['a', NUL, 'b'];
    assert Join(s[1..]) == "n" + ([NUL] + Join(x)) && Join(t[1..]) == "n" + ([NUL] + Join(y));
  }

  // ---- identities are unambiguous ----

  /** No string is a canonical identity of two kinds. */
  lemma KindsDisjoint(value: string, k: string, l: string)
    requires Is(value, k) && Is(value, l)
    ensures k == l
  {
    assert |value| == |k| + 36 == |l| + 36;
  }

  /** A canonical identity is nonblank, stands without space around it and holds no separator. */
  lemma CanonicalPlain(value: string, kind: string)
    requires Is(value, kind)
    ensures value != "" && TrimSpace(value) == value && NulFree(value)
  {
    var u := value[|kind|..];
    assert value == kind + u && value[0] == kind[0] && value[|value| - 1] == u[35];
    forall i | 0 <= i < |value| ensures value[i] != NUL {
      if i >= |kind| { assert value[i] == u[i - |kind|]; }
    }
    TrimPlain(value);
  }

  /** A derived identity is canonical for its kind, and two derivations collide only on the same arguments. */
  lemma DerivedIdentities(hash: string -> string, k: string, n: string, p: seq<string>, l: string, m: string, q: seq<string>)
    requires UuidGenerator(hash) && NoCollision(hash, Seed(k, n, p), Seed(l, m, q))
    requires Derivable(k, n, p) && Derivable(l, m, q) && NulFreeParts(n, p) && NulFreeParts(m, q)
    ensures Is(k + hash(Seed(k, n, p)), k)
    ensures k + hash(Seed(k, n, p)) == l + hash(Seed(l, m, q)) <==>
            k == l && TrimSpace(n) == TrimSpace(m) && Trimmed(p) == Trimmed(q)
  {
    var a, b := k + hash(Seed(k, n, p)), l + hash(Seed(l, m, q));
    assert a[|k|..] == hash(Seed(k, n, p)) && b[|l|..] == hash(Seed(l, m, q));
    SeedInjective(k, n, p, l, m, q);
    if a == b {
      KindsDisjoint(a, k, l);
    }
  }
}
