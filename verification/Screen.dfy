/** evals/run.py: which cases a candidate can take, and the one case per lane it is screened on. */
module Screen {
  import opened Common
  import opened Text

  datatype Param = Whole(n: int) | Other(text: string)
  type Params = map<string, Param>

  /** A case; `body` is everything selection does not read. */
  datatype Case = Case(id: string, modality: string, language: string, methods: set<string>, params: Params,
                       body: string)

  /** What selection asks of a candidate: its kind, the one modality it has if it has one, its method, its language. */
  datatype Candidate = Candidate(needle: bool, modality: Option<string>, registered: bool, lanes: set<string>,
                                 methodName: string, language: Option<string>)

  const TEXT_MODALITIES := {"svg", "web", "code", "extract", "decide", "claims"}
  const AGENT_MODALITIES := {"agent"}
  const NEEDLE_LANES := {"decide", "agent"}

  // ---- the cases a candidate can take ----

  function InModality(m: string): Case -> bool { (x: Case) => x.modality == m }

  function InLanes(lanes: set<string>): Case -> bool { (x: Case) => x.modality in lanes }

  function ForMethod(name: string): Case -> bool { (x: Case) => x.methods == {} || name in x.methods }

  function InLanguage(language: string): Case -> bool { (x: Case) => x.language == language }

  /** The cases whose declared methods take this candidate, in its method's own lanes. */
  function Fair(c: Candidate, picked: seq<Case>): seq<Case> {
    var own := if c.registered && c.lanes != {} then Filter(picked, InLanes(c.lanes)) else picked;
    var declared := Filter(own, ForMethod(c.methodName));
    if c.language.Some? then Filter(declared, InLanguage(c.language.value)) else declared
  }

  /** The cases this candidate can actually run. */
  function CasesFor(c: Candidate, cases: seq<Case>): seq<Case> {
    if c.needle then Filter(cases, InLanes(NEEDLE_LANES))
    else
      match c.modality
      case None =>
        var text := Filter(cases, InLanes(TEXT_MODALITIES + AGENT_MODALITIES));
        if c.registered then Fair(c, text) else text
      case Some(m) => Fair(c, Filter(cases, InModality(m)))
  }

  predicate FairTo(c: Candidate, x: Case) {
    && (c.registered && c.lanes != {} ==> x.modality in c.lanes)
    && (x.methods == {} || c.methodName in x.methods)
    && (c.language.Some? ==> x.language == c.language.value)
  }

  /** One case at a time: whether the candidate can take it, whatever else is in the list. */
  predicate CanTake(c: Candidate, x: Case) {
    if c.needle then x.modality in NEEDLE_LANES
    else if c.modality == None then
      x.modality in TEXT_MODALITIES + AGENT_MODALITIES && (c.registered ==> FairTo(c, x))
    else x.modality == c.modality.value && FairTo(c, x)
  }

  /** The narrowing filters together are one test of each case. */
  lemma CasesForAre(c: Candidate, cases: seq<Case>)
    ensures forall x :: x in CasesFor(c, cases) <==> x in cases && CanTake(c, x)
  {
  }

  // ---- the first case of each lane ----

  type Lane = (string, string)

  function LaneOf(x: Case): Lane { (x.modality, x.language) }

  function IdOf(x: Case): string { x.id }

  predicate ById(a: Case, b: Case) { Leq(a.id, b.id) }

  /** The values of a dictionary filled by setdefault: the first element of each key, in order. */
  function FirstBy<T, K(==)>(xs: seq<T>, key: T -> K, seen: set<K>): seq<T> {
    if xs == [] then []
    else if key(xs[0]) in seen then FirstBy(xs[1..], key, seen)
    else [xs[0]] + FirstBy(xs[1..], key, seen + {key(xs[0])})
  }

  ghost predicate HasKey<T, K>(xs: seq<T>, key: T -> K, k: K) { exists x <- xs :: key(x) == k }

  lemma HasKeyCons<T, K>(x: T, xs: seq<T>, key: T -> K)
    ensures forall k :: HasKey([x] + xs, key, k) <==> key(x) == k || HasKey(xs, key, k)
  {
    forall k
      ensures HasKey([x] + xs, key, k) <==> key(x) == k || HasKey(xs, key, k)
    {
      assert x in [x] + xs && forall y <- xs :: y in [x] + xs;
    }
  }

  lemma {:induction false} FirstByIs<T, K>(xs: seq<T>, key: T -> K, seen: set<K>)
    ensures forall y <- FirstBy(xs, key, seen) :: y in xs && key(y) !in seen
    ensures forall x <- xs :: key(x) in seen || HasKey(FirstBy(xs, key, seen), key, key(x))
  {
    if xs != [] {
      assert forall x :: x in xs <==> x == xs[0] || x in xs[1..];
      var next := if key(xs[0]) in seen then seen else seen + {key(xs[0])};
      FirstByIs(xs[1..], key, next);
      HasKeyCons(xs[0], FirstBy(xs[1..], key, next), key);
      hide HasKey;
    }
  }

  /** The first case by id for each (modality, language). */
  function FirstEach(cases: seq<Case>): seq<Case> {
    FirstBy(SortBy(cases, ById), LaneOf, {})
  }

  method FirstOfEach(cases: seq<Case>) returns (picked: seq<Case>)
    ensures picked == FirstEach(cases)
  {
    var sorted := SortBy(cases, ById);
    picked := SetDefault(sorted, LaneOf);
  }

  method SetDefault<T, K(==)>(xs: seq<T>, key: T -> K) returns (picked: seq<T>)
    ensures picked == FirstBy(xs, key, {})
  {
    picked := [];
    var seen: set<K> := {};
    var i := 0;
    while i < |xs|
      invariant 0 <= i <= |xs|
      invariant FirstBy(xs, key, {}) == picked + FirstBy(xs[i..], key, seen)
    {
      assert xs[i..][0] == xs[i] && xs[i..][1..] == xs[i + 1..];
      if key(xs[i]) !in seen {
        picked := picked + [xs[i]];
        seen := seen + {key(xs[i])};
      }
      i := i + 1;
    }
  }

  // ---- the screen's cases ----

  const SCREEN_PARAMS: Params := map["width" := Whole(256), "height" := Whole(256), "steps" := Whole(2)]

  function Shrunk(was: Param, limit: Param): Param {
    if was.Whole? && limit.Whole? then Whole(Min(was.n, limit.n)) else limit
  }

  /** The case at the smallest settings that still prove it ran. */
  function Shrink(x: Case): Case {
    x.(params := map k | k in x.params ::
         if k in SCREEN_PARAMS then Shrunk(x.params[k], SCREEN_PARAMS[k]) else x.params[k])
  }

  function Groups(cases: seq<Case>, candidates: seq<Candidate>): seq<seq<Case>> {
    if candidates == [] then [] else [FirstEach(CasesFor(candidates[0], cases))] + Groups(cases, candidates[1..])
  }

  function AllGroups(cases: seq<Case>, candidates: seq<Candidate>): seq<seq<Case>> {
    if candidates == [] then [FirstEach(cases)] else Groups(cases, candidates)
  }

  /** Each candidate's first case per lane, each case once. */
  function Picks(cases: seq<Case>, candidates: seq<Candidate>): seq<Case> {
    FirstBy(Flatten(AllGroups(cases, candidates)), IdOf, {})
  }

  lemma {:induction false} GroupsOneMore(cases: seq<Case>, cs: seq<Candidate>, c: Candidate)
    ensures Groups(cases, cs + [c]) == Groups(cases, cs) + [FirstEach(CasesFor(c, cases))]
  {
    hide FirstEach, CasesFor;
    if cs == [] {
      assert cs + [c] == [c] && Groups(cases, [c]) == [FirstEach(CasesFor(c, cases))] + Groups(cases, [c][1..]);
    } else {
      assert (cs + [c])[1..] == cs[1..] + [c];
      GroupsOneMore(cases, cs[1..], c);
    }
  }

  method FirstsOfGroups(cases: seq<Case>, candidates: seq<Candidate>) returns (groups: seq<seq<Case>>)
    ensures groups == AllGroups(cases, candidates)
  {
    if candidates == [] {
      var first := FirstOfEach(cases);
      return [first];
    }
    groups := [];
    var i := 0;
    GroupsEnds(cases, candidates);
    hide *;
    while i < |candidates|
      invariant 0 <= i <= |candidates|
      invariant groups == Groups(cases, candidates[..i])
    {
      var group := CasesFor(candidates[i], cases);
      var first := FirstOfEach(group);
      GroupsNext(cases, candidates, i);
      groups := groups + [first];
      i := i + 1;
    }
  }

  lemma GroupsNext(cases: seq<Case>, cs: seq<Candidate>, i: nat)
    requires i < |cs|
    ensures Groups(cases, cs[..i + 1]) == Groups(cases, cs[..i]) + [FirstEach(CasesFor(cs[i], cases))]
  {
    assert cs[..i + 1] == cs[..i] + [cs[i]];
    GroupsOneMore(cases, cs[..i], cs[i]);
  }

  lemma GroupsEnds(cases: seq<Case>, cs: seq<Candidate>)
    ensures Groups(cases, cs[..0]) == []
    ensures cs != [] ==> Groups(cases, cs[..|cs|]) == AllGroups(cases, cs)
  {
    assert cs[..|cs|] == cs;
  }

  /** One case per modality and language for each candidate, shrunk. */
  method ScreenCases(cases: seq<Case>, candidates: seq<Candidate>) returns (out: seq<Case>)
    ensures out == Apply(Picks(cases, candidates), Shrink)
  {
    hide AllGroups, FirstBy, Flatten;
    var groups := FirstsOfGroups(cases, candidates);
    var picked := SetDefault(Flatten(groups), IdOf);
    out := Apply(picked, Shrink);
  }

  // ---- what the first of each lane is ----

  /** An id names one case. */
  predicate IdsName(cases: seq<Case>) {
    forall a <- cases, b <- cases :: a.id == b.id ==> a == b
  }

  /** No case of its lane has an earlier id. */
  predicate FirstOfLane(x: Case, cases: seq<Case>) {
    x in cases && forall y <- cases :: LaneOf(y) == LaneOf(x) ==> Leq(x.id, y.id)
  }

  predicate StrictlyById(xs: seq<Case>) {
    forall i, j :: 0 <= i < j < |xs| ==> Leq(xs[i].id, xs[j].id) && xs[i].id != xs[j].id
  }

  lemma ByIdIsAnOrder()
    ensures TotalPreorder(ById)
  {
    forall a: Case, b: Case
      ensures ById(a, b) || ById(b, a)
    {
      LeqTotal(a.id, b.id);
    }
    forall a: Case, b: Case, c: Case | ById(a, b) && ById(b, c)
      ensures ById(a, c)
    {
      LeqTransitive(a.id, b.id, c.id);
    }
  }

  /** Nothing after its head comes before it. */
  lemma HeadIsFirst(xs: seq<Case>)
    requires xs != [] && Ordered(xs, ById) && TotalPreorder(ById)
    ensures Ordered(xs[1..], ById) && forall x <- xs :: ById(xs[0], x)
  {
    hide ById;
    forall x <- xs
      ensures ById(xs[0], x)
    {
      var i :| 0 <= i < |xs| && xs[i] == x;
      assert ById(xs[0], xs[0]);
    }
  }

  predicate LanesDiffer(xs: seq<Case>) {
    forall i, j :: 0 <= i < j < |xs| ==> LaneOf(xs[i]) != LaneOf(xs[j])
  }

  lemma {:induction false} FirstByOrdered(xs: seq<Case>, seen: set<Lane>)
    requires Ordered(xs, ById) && TotalPreorder(ById)
    ensures var ys := FirstBy(xs, LaneOf, seen); Ordered(ys, ById) && LanesDiffer(ys)
  {
    if xs != [] {
      var x := xs[0];
      var next := if LaneOf(x) in seen then seen else seen + {LaneOf(x)};
      var rest := FirstBy(xs[1..], LaneOf, next);
      assert FirstBy(xs, LaneOf, seen) == if LaneOf(x) in seen then rest else [x] + rest;
      FirstByIs(xs[1..], LaneOf, next);
      HeadIsFirst(xs);
      hide Ordered, LanesDiffer, ById, LaneOf, FirstBy, TotalPreorder, HasKey;
      FirstByOrdered(xs[1..], next);
      if LaneOf(x) !in seen {
        assert forall r <- rest :: r in xs;
        ConsOrdered(x, rest);
      }
    }
  }

  /** What is taken for a lane comes before all of the lane. */
  lemma {:induction false} FirstByIsFirst(xs: seq<Case>, seen: set<Lane>)
    requires Ordered(xs, ById) && TotalPreorder(ById)
    ensures forall y <- FirstBy(xs, LaneOf, seen), x <- xs :: LaneOf(y) == LaneOf(x) ==> ById(y, x)
  {
    if xs != [] {
      var next := if LaneOf(xs[0]) in seen then seen else seen + {LaneOf(xs[0])};
      var rest := FirstBy(xs[1..], LaneOf, next);
      assert forall y <- FirstBy(xs, LaneOf, seen) :: y == xs[0] || y in rest;
      FirstByIs(xs[1..], LaneOf, next);
      FirstByIs(xs, LaneOf, seen);
      HeadIsFirst(xs);
      FirstByIsFirst(xs[1..], next);
      assert forall x :: x in xs <==> x == xs[0] || x in xs[1..];
      hide ById, LaneOf, FirstBy, TotalPreorder, Ordered, HasKey;
    }
  }

  lemma ConsOrdered(x: Case, rest: seq<Case>)
    requires Ordered(rest, ById) && LanesDiffer(rest)
    requires forall r <- rest :: ById(x, r) && LaneOf(r) != LaneOf(x)
    ensures Ordered([x] + rest, ById) && LanesDiffer([x] + rest)
  {
    hide ById, LaneOf;
    assert forall i :: 0 <= i < |rest| ==> rest[i] in rest;
  }

  lemma FirstEachOrdered(cases: seq<Case>)
    ensures var ys := FirstEach(cases);
            && Ordered(ys, ById) && LanesDiffer(ys)
            && (forall y <- ys :: FirstOfLane(y, cases))
            && (forall x <- cases :: HasKey(ys, LaneOf, LaneOf(x)))
  {
    var sorted := SortBy(cases, ById);
    ByIdIsAnOrder();
    SortByOrdered(cases, ById);
    SortByMembers(cases, ById);
    FirstByIs(sorted, LaneOf, {});
    FirstByOrdered(sorted, {});
    FirstByIsFirst(sorted, {});
    hide FirstBy, SortBy, TotalPreorder, LaneOf, Leq, HasKey;
  }

  /** The first of each lane: exactly the cases no other of their lane precedes, in order of id. */
  lemma FirstEachIs(cases: seq<Case>)
    requires IdsName(cases)
    ensures forall x :: x in FirstEach(cases) <==> FirstOfLane(x, cases)
    ensures StrictlyById(FirstEach(cases))
  {
    FirstEachOrdered(cases);
    var ys := FirstEach(cases);
    hide FirstEach, LaneOf, Leq;
    forall x
      ensures x in ys <==> FirstOfLane(x, cases)
    {
      if FirstOfLane(x, cases) {
        assert HasKey(ys, LaneOf, LaneOf(x));
        var y :| y in ys && LaneOf(y) == LaneOf(x);
        LeqTotal(x.id, y.id);
      }
    }
    forall i, j | 0 <= i < j < |ys|
      ensures Leq(ys[i].id, ys[j].id) && ys[i].id != ys[j].id
    {
      assert ys[i] in ys && ys[j] in ys && ById(ys[i], ys[j]);
    }
  }

  /** Of two such lists with the same members, the heads are the same. */
  lemma SameHead(a: seq<Case>, b: seq<Case>)
    requires StrictlyById(a) && StrictlyById(b) && (forall x :: x in a <==> x in b) && a != []
    ensures b != [] && a[0] == b[0]
  {
    assert a[0] in b && b[0] in a;
    var i :| 0 <= i < |b| && b[i] == a[0];
    var j :| 0 <= j < |a| && a[j] == b[0];
    LeqTotal(a[0].id, b[0].id);
    hide Leq;
  }

  lemma TailIsOrdered(a: seq<Case>)
    requires StrictlyById(a) && a != []
    ensures StrictlyById(a[1..])
  {
    hide Leq;
    assert forall i :: 0 <= i < |a[1..]| ==> a[1..][i] == a[i + 1];
  }

  lemma TailHolds(a: seq<Case>, x: Case)
    requires StrictlyById(a) && a != []
    ensures x in a[1..] <==> x in a && x != a[0]
  {
    hide Leq;
    assert x in a <==> x == a[0] || x in a[1..];
    if x in a[1..] {
      var k :| 0 <= k < |a[1..]| && a[1..][k] == x;
      assert a[k + 1] == x;
    }
  }

  lemma SameTails(a: seq<Case>, b: seq<Case>)
    requires StrictlyById(a) && StrictlyById(b) && (forall x :: x in a <==> x in b) && a != [] && b != []
    requires a[0] == b[0]
    ensures StrictlyById(a[1..]) && StrictlyById(b[1..]) && forall x :: x in a[1..] <==> x in b[1..]
  {
    TailIsOrdered(a);
    TailIsOrdered(b);
    hide StrictlyById;
    forall x
      ensures x in a[1..] <==> x in b[1..]
    {
      TailHolds(a, x);
      TailHolds(b, x);
    }
  }

  lemma {:induction false} SameMembersSameOrder(a: seq<Case>, b: seq<Case>)
    requires StrictlyById(a) && StrictlyById(b) && forall x :: x in a <==> x in b
    ensures a == b
  {
    if a == [] {
      EmptyIsNone(b);
    } else {
      SameHead(a, b);
      SameTails(a, b);
      hide StrictlyById;
      SameMembersSameOrder(a[1..], b[1..]);
      assert a == [a[0]] + a[1..] && b == [b[0]] + b[1..];
    }
  }

  // ---- shrinking leaves selection alone ----

  lemma ShrinkKeepsSelection(c: Candidate, x: Case)
    ensures Shrink(x).id == x.id && LaneOf(Shrink(x)) == LaneOf(x)
    ensures CanTake(c, Shrink(x)) <==> CanTake(c, x)
  {
  }

  /** Shrinking lowers the named whole numbers to their limits and touches nothing else. */
  lemma ShrinkIs(x: Case, k: string)
    requires k in x.params
    ensures Shrink(x).params.Keys == x.params.Keys
    ensures k !in SCREEN_PARAMS ==> Shrink(x).params[k] == x.params[k]
    ensures k in SCREEN_PARAMS && x.params[k].Whole? ==>
              Shrink(x).params[k].Whole? && Shrink(x).params[k].n <= x.params[k].n
              && Shrink(x).params[k].n <= SCREEN_PARAMS[k].n
    ensures Shrink(Shrink(x)) == Shrink(x)
  {
    assert Shrink(Shrink(x)).params == Shrink(x).params;
  }

  lemma MembersOfShrunk(xs: seq<Case>, y: Case)
    ensures y in Apply(xs, Shrink) <==> exists x <- xs :: y == Shrink(x)
  {
    var ys := Apply(xs, Shrink);
    if x :| x in xs && y == Shrink(x) {
      var i :| 0 <= i < |xs| && xs[i] == x;
      assert ys[i] == y;
    }
  }

  lemma ShrunkIdsName(xs: seq<Case>)
    requires IdsName(xs)
    ensures IdsName(Apply(xs, Shrink))
  {
    var ys := Apply(xs, Shrink);
    forall a <- ys, b <- ys | a.id == b.id
      ensures a == b
    {
      MembersOfShrunk(xs, a);
      MembersOfShrunk(xs, b);
    }
  }

  /** Shrinking the firsts is taking the firsts of the shrunk. */
  lemma FirstsOfShrunk(xs: seq<Case>)
    requires IdsName(xs)
    ensures FirstEach(Apply(xs, Shrink)) == Apply(FirstEach(xs), Shrink)
  {
    var ys := Apply(xs, Shrink);
    ShrunkIdsName(xs);
    FirstEachIs(xs);
    FirstEachIs(ys);
    hide FirstEach, Shrink, LaneOf, Leq;
    var (a, b) := (FirstEach(ys), Apply(FirstEach(xs), Shrink));
    forall y
      ensures y in a <==> y in b
    {
      MembersOfShrunk(xs, y);
      MembersOfShrunk(FirstEach(xs), y);
      if y in ys {
        var x :| x in xs && y == Shrink(x);
        FirstIsShrunkFirst(xs, x);
      }
    }
    forall i, j | 0 <= i < j < |b|
      ensures Leq(b[i].id, b[j].id) && b[i].id != b[j].id
    {
      ShrinkKeepsId(FirstEach(xs)[i]);
      ShrinkKeepsId(FirstEach(xs)[j]);
    }
    SameMembersSameOrder(a, b);
  }

  lemma ShrinkKeepsId(x: Case)
    ensures Shrink(x).id == x.id && LaneOf(Shrink(x)) == LaneOf(x)
  {
  }

  lemma FirstIsShrunkFirst(xs: seq<Case>, x: Case)
    requires IdsName(xs) && x in xs
    ensures FirstOfLane(Shrink(x), Apply(xs, Shrink)) <==> FirstOfLane(x, xs)
    ensures forall z <- xs :: Shrink(z) == Shrink(x) ==> z == x
  {
    var ys := Apply(xs, Shrink);
    ShrinkKeepsId(x);
    forall z <- xs
      ensures Shrink(z).id == z.id && LaneOf(Shrink(z)) == LaneOf(z) && Shrink(z) in ys
    {
      ShrinkKeepsId(z);
      MembersOfShrunk(xs, Shrink(z));
    }
    hide Shrink, LaneOf, Leq;
    assert Shrink(x) in ys;
    if FirstOfLane(x, xs) {
      forall y <- ys | LaneOf(y) == LaneOf(Shrink(x))
        ensures Leq(Shrink(x).id, y.id)
      {
        MembersOfShrunk(xs, y);
      }
    }
  }

  /** A candidate can take the shrunken form of what it can take. */
  lemma TakingShrunk(c: Candidate, xs: seq<Case>)
    ensures forall y :: y in CasesFor(c, Apply(xs, Shrink)) <==> y in Apply(CasesFor(c, xs), Shrink)
  {
    CasesForAre(c, xs);
    CasesForAre(c, Apply(xs, Shrink));
    forall y
      ensures y in CasesFor(c, Apply(xs, Shrink)) <==> y in Apply(CasesFor(c, xs), Shrink)
    {
      MembersOfShrunk(xs, y);
      MembersOfShrunk(CasesFor(c, xs), y);
      hide CasesFor, CanTake, Shrink;
      forall x
        ensures CanTake(c, Shrink(x)) <==> CanTake(c, x)
      {
        ShrinkKeepsSelection(c, x);
      }
    }
  }

  /** The firsts depend on which cases there are, not on their order or repetition. */
  lemma FirstsOfSameMembers(xs: seq<Case>, ys: seq<Case>)
    requires IdsName(xs) && forall x :: x in xs <==> x in ys
    ensures FirstEach(xs) == FirstEach(ys)
  {
    FirstEachIs(xs);
    FirstEachIs(ys);
    hide FirstEach, LaneOf, Leq;
    SameMembersSameOrder(FirstEach(xs), FirstEach(ys));
  }

  // ---- the picks ----

  lemma {:induction false} FlattenMembers<T>(parts: seq<seq<T>>)
    ensures forall x :: x in Flatten(parts) <==> exists p <- parts :: x in p
  {
    if parts != [] {
      FlattenMembers(parts[1..]);
      assert forall p :: p in parts <==> p == parts[0] || p in parts[1..];
    }
  }

  lemma {:induction false} GroupsAre(cases: seq<Case>, candidates: seq<Candidate>)
    ensures forall g :: g in Groups(cases, candidates) <==> exists c <- candidates :: g == FirstEach(CasesFor(c, cases))
  {
    hide FirstEach, CasesFor;
    if candidates != [] {
      GroupsAre(cases, candidates[1..]);
      assert forall c :: c in candidates <==> c == candidates[0] || c in candidates[1..];
    }
  }

  predicate Picked(x: Case, cases: seq<Case>, candidates: seq<Candidate>) {
    exists c <- candidates :: x in FirstEach(CasesFor(c, cases))
  }

  lemma FirstsAreCases(c: Candidate, cases: seq<Case>)
    requires IdsName(cases)
    ensures IdsName(CasesFor(c, cases))
    ensures forall x :: x in FirstEach(CasesFor(c, cases)) <==> FirstOfLane(x, CasesFor(c, cases))
    ensures forall x <- FirstEach(CasesFor(c, cases)) :: x in cases && CanTake(c, x)
  {
    CasesForAre(c, cases);
    hide FirstEach, CasesFor, CanTake;
    FirstEachIs(CasesFor(c, cases));
  }

  /** What is picked is some candidate's first. */
  lemma PicksAre(cases: seq<Case>, candidates: seq<Candidate>)
    requires IdsName(cases) && candidates != []
    ensures forall x :: x in Picks(cases, candidates) <==> Picked(x, cases, candidates)
    ensures forall x <- Picks(cases, candidates) :: x in cases
  {
    GroupsAre(cases, candidates);
    FlattenMembers(Groups(cases, candidates));
    var all := Flatten(Groups(cases, candidates));
    var picks := FirstBy(all, IdOf, {});
    FirstByIs(all, IdOf, {});
    hide FirstBy, Groups, Flatten, FirstEach, CasesFor;
    forall x <- all
      ensures x in cases
    {
      var g :| g in Groups(cases, candidates) && x in g;
      var c :| c in candidates && g == FirstEach(CasesFor(c, cases));
      FirstsAreCases(c, cases);
    }
    forall x
      ensures x in picks <==> Picked(x, cases, candidates)
    {
      if Picked(x, cases, candidates) {
        var c :| c in candidates && x in FirstEach(CasesFor(c, cases));
        assert FirstEach(CasesFor(c, cases)) in Groups(cases, candidates);
        assert x in all;
        assert HasKey(picks, IdOf, IdOf(x));
        var y :| y in picks && IdOf(y) == IdOf(x);
        assert y == x;
      }
    }
  }

  /** Among the picks, a candidate's first of a lane is the one it has alone. */
  lemma FirstsAmongPicks(c: Candidate, cases: seq<Case>, picks: seq<Case>)
    requires IdsName(cases) && forall x <- picks :: x in cases
    requires forall x <- FirstEach(CasesFor(c, cases)) :: x in picks
    ensures FirstEach(CasesFor(c, picks)) == FirstEach(CasesFor(c, cases))
  {
    assert IdsName(picks);
    FirstsAreCases(c, cases);
    FirstsAreCases(c, picks);
    CasesForAre(c, cases);
    CasesForAre(c, picks);
    var (mine, alone) := (CasesFor(c, picks), CasesFor(c, cases));
    FirstEachIs(mine);
    FirstEachIs(alone);
    SortByMembers(alone, ById);
    FirstByIs(SortBy(alone, ById), LaneOf, {});
    assert forall y <- alone :: HasKey(FirstEach(alone), LaneOf, LaneOf(y));
    hide FirstEach, CasesFor, CanTake, LaneOf, Leq;
    forall x
      ensures FirstOfLane(x, mine) <==> FirstOfLane(x, alone)
    {
      if FirstOfLane(x, mine) {
        forall y <- alone | LaneOf(y) == LaneOf(x)
          ensures Leq(x.id, y.id)
        {
          assert HasKey(FirstEach(alone), LaneOf, LaneOf(y));
          var m :| m in FirstEach(alone) && LaneOf(m) == LaneOf(y);
          LeqTransitive(x.id, m.id, y.id);
        }
      }
    }
    SameMembersSameOrder(FirstEach(mine), FirstEach(alone));
  }

  /**
   * Screening is independent of company: among the screen's cases for any candidates, one of them is screened on
   * the shrunken first case of each lane of those it could take alone.
   */
  lemma ScreenedAsIfAlone(c: Candidate, cases: seq<Case>, candidates: seq<Candidate>)
    requires IdsName(cases) && c in candidates
    ensures FirstEach(CasesFor(c, Apply(Picks(cases, candidates), Shrink)))
         == Apply(FirstEach(CasesFor(c, cases)), Shrink)
  {
    var picks := Picks(cases, candidates);
    PicksAre(cases, candidates);
    hide Picks, FirstEach, CasesFor, Shrink;
    assert IdsName(picks);
    assert forall x <- FirstEach(CasesFor(c, cases)) :: Picked(x, cases, candidates);
    FirstsAmongPicks(c, cases, picks);
    FirstsAreCases(c, picks);
    TakingShrunk(c, picks);
    ShrunkIdsName(CasesFor(c, picks));
    FirstsOfSameMembers(Apply(CasesFor(c, picks), Shrink), CasesFor(c, Apply(picks, Shrink)));
    FirstsOfShrunk(CasesFor(c, picks));
  }

  /** So it is screened on something exactly when it can take some case. */
  lemma ScreenedOnSomething(c: Candidate, cases: seq<Case>, candidates: seq<Candidate>)
    requires IdsName(cases) && c in candidates
    ensures FirstEach(CasesFor(c, Apply(Picks(cases, candidates), Shrink))) != []
            <==> exists x <- cases :: CanTake(c, x)
  {
    ScreenedAsIfAlone(c, cases, candidates);
    CasesForAre(c, cases);
    var alone := CasesFor(c, cases);
    FirstsOfNone(alone);
    hide FirstEach, CasesFor, CanTake, Picks, Shrink;
    if x :| x in cases && CanTake(c, x) {
      assert x in alone;
    } else {
      EmptyIsNone(alone);
    }
  }

  lemma FirstsOfNone(xs: seq<Case>)
    ensures FirstEach(xs) == [] <==> xs == []
  {
    SortByMembers(xs, ById);
    if xs != [] {
      assert xs[0] in SortBy(xs, ById);
    }
  }
}
