/** The active-project selections: a map from scope to project, kept as a sorted list. */
module Routing {
  import opened Common
  import opened Sorting
  import opened Registry

  datatype Scope =
    | Global
    | Channel(channel: string, binding: string)
    | Thread(channel: string, binding: string, thread: string)

  datatype Selection = Selection(id: string, scope: Scope, updatedAt: nat)

  predicate SameScope(a: Scope, b: Scope) {
    match (a, b)
    case (Global, Global) => true
    case (Channel(c, d), Channel(c', d')) => c == c' && d == d'
    case (Thread(c, d, t), Thread(c', d', t')) => c == c' && d == d' && t == t'
    case _ => false
  }

  function ScopeRank(s: Scope): seq<string> {
    match s
    case Global => ["global", "", "", ""]
    case Channel(c, b) => ["channel", c, b, ""]
    case Thread(c, b, t) => ["thread", c, b, t]
  }

  // ---- lexicographic order of string tuples ---------------------------------------

  predicate TupleLess(a: seq<string>, b: seq<string>) {
    if b == [] then false
    else if a == [] then true
    else if a[0] == b[0] then TupleLess(a[1..], b[1..])
    else StringLess(a[0], b[0])
  }

  lemma {:induction false} TupleLessAsymmetric(a: seq<string>, b: seq<string>)
    requires TupleLess(a, b)
    ensures !TupleLess(b, a)
  {
    if a != [] {
      if a[0] == b[0] {
        TupleLessAsymmetric(a[1..], b[1..]);
      } else {
        StringLessAsymmetric(a[0], b[0]);
      }
    }
  }

  lemma {:induction false} TupleLessTotal(a: seq<string>, b: seq<string>)
    ensures TupleLess(a, b) || TupleLess(b, a) || a == b
  {
    if a != [] && b != [] {
      if a[0] == b[0] {
        TupleLessTotal(a[1..], b[1..]);
        assert a == [a[0]] + a[1..] && b == [b[0]] + b[1..];
      } else {
        StringLessTotal(a[0], b[0]);
      }
    }
  }

  lemma {:induction false} TupleLessTransitive(a: seq<string>, b: seq<string>, c: seq<string>)
    requires TupleLess(a, b) && TupleLess(b, c)
    ensures TupleLess(a, c)
  {
    if a != [] {
      if a[0] == b[0] && b[0] == c[0] {
        TupleLessTransitive(a[1..], b[1..], c[1..]);
      } else if a[0] != b[0] && b[0] != c[0] {
        StringLessTransitive(a[0], b[0], c[0]);
        if a[0] == c[0] {
          StringLessAsymmetric(a[0], b[0]);
        }
      }
    }
  }

  function SelectionKey(s: Selection): seq<string> {
    ScopeRank(s.scope) + [s.id]
  }

  predicate SelectionLess(a: Selection, b: Selection) {
    TupleLess(SelectionKey(a), SelectionKey(b))
  }

  lemma SelectionOrder()
    ensures StrictWeakOrder(SelectionLess)
  {
    forall a, b | SelectionLess(a, b)
      ensures !SelectionLess(b, a)
    {
      TupleLessAsymmetric(SelectionKey(a), SelectionKey(b));
    }
    forall a, b, c | !SelectionLess(b, a) && !SelectionLess(c, b)
      ensures !SelectionLess(c, a)
    {
      NotLessTransitive(SelectionKey(a), SelectionKey(b), SelectionKey(c));
    }
  }

  lemma NotLessTransitive(a: seq<string>, b: seq<string>, c: seq<string>)
    requires !TupleLess(b, a) && !TupleLess(c, b)
    ensures !TupleLess(c, a)
  {
    if TupleLess(c, a) {
      TupleLessTotal(a, b);
      TupleLessTotal(b, c);
      if a != b && b != c {
        TupleLessTransitive(a, b, c);
        TupleLessAsymmetric(a, c);
      }
    }
  }

  /** The scope can be read off the key again. */
  function ScopeOfKey(key: seq<string>): Scope
    requires |key| == 5
  {
    if key[0] == "global" then Global
    else if key[0] == "channel" then Channel(key[1], key[2])
    else Thread(key[1], key[2], key[3])
  }

  lemma KeyRoundTrip(s: Selection)
    ensures |SelectionKey(s)| == 5 && ScopeOfKey(SelectionKey(s)) == s.scope
  {
  }

  lemma NotBeforeItself(s: Selection)
    ensures !SelectionLess(s, s)
  {
    if SelectionLess(s, s) {
      TupleLessAsymmetric(SelectionKey(s), SelectionKey(s));
    }
  }

  /** Different scopes have different ranks, so the order tells any two selections of different scopes apart. */
  lemma ScopesOrdered(a: Selection, b: Selection)
    requires a.scope != b.scope
    ensures SelectionLess(a, b) || SelectionLess(b, a)
  {
    KeyRoundTrip(a);
    KeyRoundTrip(b);
    TupleLessTotal(SelectionKey(a), SelectionKey(b));
  }

  lemma SameScopeIsEquality(a: Scope, b: Scope)
    ensures SameScope(a, b) <==> a == b
  {
  }

  // ---- setting the active project ------------------------------------------------

  predicate ScopesDistinct(ss: seq<Selection>) {
    forall i, j :: 0 <= i < j < |ss| ==> ss[i].scope != ss[j].scope
  }

  /** What is checked on load and again on save. */
  predicate ValidSelections(ss: seq<Selection>) {
    (forall s :: s in ss ==> IsLabel(s.id)) && ScopesDistinct(ss)
  }

  function Retained(ss: seq<Selection>, scope: Scope): seq<Selection> {
    if ss == [] then []
    else (if SameScope(ss[0].scope, scope) then [] else [ss[0]]) + Retained(ss[1..], scope)
  }

  datatype RoutingError = BrokenFile | NotRegistered(id: string)

  function SetActive(projects: seq<Project>, ss: seq<Selection>, id: string, scope: Scope, now: nat)
    : Result<seq<Selection>, RoutingError>
  {
    if !ValidRegistry(projects) then Err(BrokenFile)
    else if forall p :: p in projects ==> p.id != id then Err(NotRegistered(id))
    else if !ValidSelections(ss) then Err(BrokenFile)
    else Ok(Sort(Retained(ss, scope) + [Selection(id, scope, now)], SelectionLess))
  }

  /** One step of the walk that keeps the selections of other scopes. */
  lemma RetainOne(kept: seq<Selection>, ss: seq<Selection>, i: nat, scope: Scope)
    requires i < |ss|
    ensures kept + Retained(ss[i..], scope)
            == (if SameScope(ss[i].scope, scope) then kept else kept + [ss[i]]) + Retained(ss[i + 1..], scope)
  {
    var rest := Retained(ss[i + 1..], scope);
    assert ss[i..][1..] == ss[i + 1..];
    ConcatAssociative(kept, [ss[i]], rest);
    assert [] + rest == rest;
  }

  /** The list selects this project for this scope. */
  predicate Selects(ss: seq<Selection>, scope: Scope, id: string) {
    exists s :: s in ss && s.scope == scope && s.id == id
  }

  lemma {:induction false} RetainedFacts(ss: seq<Selection>, scope: Scope)
    requires ScopesDistinct(ss)
    ensures forall s :: s in Retained(ss, scope) <==> s in ss && s.scope != scope
    ensures ScopesDistinct(Retained(ss, scope))
  {
    if ss != [] {
      RetainedFacts(ss[1..], scope);
      SameScopeIsEquality(ss[0].scope, scope);
      assert forall s :: s in ss <==> s == ss[0] || s in ss[1..];
      var rest := Retained(ss[1..], scope);
      forall j | 0 <= j < |rest|
        ensures rest[j].scope != ss[0].scope
      {
        assert rest[j] in ss[1..];
      }
    }
  }

  lemma ScopesDistinctStrict(ss: seq<Selection>)
    requires ScopesDistinct(ss)
    ensures StrictlySorted(Sort(ss, SelectionLess), SelectionLess)
    ensures ScopesDistinct(Sort(ss, SelectionLess))
  {
    forall i, j | 0 <= i < j < |ss|
      ensures SelectionLess(ss[i], ss[j]) || SelectionLess(ss[j], ss[i])
    {
      ScopesOrdered(ss[i], ss[j]);
    }
    SelectionOrder();
    SortStrict(ss, SelectionLess);
    SortFacts(ss, SelectionLess);
    var sorted := Sort(ss, SelectionLess);
    forall i, j | 0 <= i < j < |sorted|
      ensures sorted[i].scope != sorted[j].scope
    {
      assert sorted[i] in ss && sorted[j] in ss;
      var k :| 0 <= k < |ss| && ss[k] == sorted[i];
      var l :| 0 <= l < |ss| && ss[l] == sorted[j];
      assert SelectionLess(sorted[i], sorted[j]);
      NotBeforeItself(sorted[i]);
    }
  }

  /**
   Setting the active project of a scope changes the selection of that scope only,
   and leaves a list that is strictly sorted and passes the check on save.
   */
  lemma SetActiveUpdatesMap(projects: seq<Project>, ss: seq<Selection>, id: string, scope: Scope, now: nat)
    requires SetActive(projects, ss, id, scope, now).Ok?
    ensures var after := SetActive(projects, ss, id, scope, now).value;
            && ValidSelections(after) && StrictlySorted(after, SelectionLess)
            && forall sc, i :: Selects(after, sc, i) <==> if sc == scope then i == id else Selects(ss, sc, i)
  {
    var chosen := Selection(id, scope, now);
    var p :| p in projects && p.id == id;
    assert IsLabel(id);
    ReplacedIsSorted(ss, chosen);
    forall sc, i
      ensures Selects(Replaced(ss, chosen), sc, i) <==> if sc == scope then i == id else Selects(ss, sc, i)
    {
      ReplacedSelects(ss, chosen, sc, i);
    }
  }

  /** The selection of one scope taken out, the new one put in, in order. */
  function Replaced(ss: seq<Selection>, chosen: Selection): seq<Selection> {
    Sort(Retained(ss, chosen.scope) + [chosen], SelectionLess)
  }

  lemma ReplacedIsSorted(ss: seq<Selection>, chosen: Selection)
    requires ScopesDistinct(ss)
    ensures ScopesDistinct(Replaced(ss, chosen)) && StrictlySorted(Replaced(ss, chosen), SelectionLess)
    ensures forall s :: s in Replaced(ss, chosen) <==> s == chosen || (s in ss && s.scope != chosen.scope)
  {
    var kept := Retained(ss, chosen.scope);
    var all := kept + [chosen];
    RetainedFacts(ss, chosen.scope);
    assert ScopesDistinct(all) by {
      assert forall i :: 0 <= i < |kept| ==> kept[i] in kept;
    }
    ScopesDistinctStrict(all);
    SelectionOrder();
    SortFacts(all, SelectionLess);
  }

  lemma ReplacedSelects(ss: seq<Selection>, chosen: Selection, scope: Scope, id: string)
    requires ScopesDistinct(ss)
    ensures Selects(Replaced(ss, chosen), scope, id)
            <==> if scope == chosen.scope then id == chosen.id else Selects(ss, scope, id)
  {
    ReplacedIsSorted(ss, chosen);
    assert chosen in Replaced(ss, chosen);
  }

  /** When a project is selected, and the whole new list: one entry for the scope, every other entry as it was. */
  lemma SetActiveExact(projects: seq<Project>, ss: seq<Selection>, id: string, scope: Scope, now: nat)
    ensures SetActive(projects, ss, id, scope, now).Ok?
            <==> ValidRegistry(projects) && ValidSelections(ss) && exists p :: p in projects && p.id == id
    ensures SetActive(projects, ss, id, scope, now).Ok? ==>
              forall s :: s in SetActive(projects, ss, id, scope, now).value
                          <==> s == Selection(id, scope, now) || (s in ss && s.scope != scope)
  {
    if SetActive(projects, ss, id, scope, now).Ok? {
      ReplacedIsSorted(ss, Selection(id, scope, now));
    }
  }

  // ---- any run -------------------------------------------------------------------

  datatype SetOp = SetOp(projects: seq<Project>, id: string, scope: Scope, now: nat)

  predicate Accepted(op: SetOp) {
    ValidRegistry(op.projects) && exists p :: p in op.projects && p.id == op.id
  }

  function ApplySets(ss: seq<Selection>, ops: seq<SetOp>): seq<Selection>
    decreases |ops|
  {
    if ops == [] then ss
    else
      var r := SetActive(ops[0].projects, ss, ops[0].id, ops[0].scope, ops[0].now);
      ApplySets(if r.Ok? then r.value else ss, ops[1..])
  }

  /** The project of the last accepted request for the scope. */
  function LastSet(ops: seq<SetOp>, scope: Scope): Option<string> {
    if ops == [] then None
    else
      var op := ops[|ops| - 1];
      if Accepted(op) && op.scope == scope then Some(op.id) else LastSet(ops[..|ops| - 1], scope)
  }

  lemma {:induction false} ApplySetsSnoc(ss: seq<Selection>, ops: seq<SetOp>, op: SetOp)
    ensures ApplySets(ss, ops + [op]) == ApplySets(ApplySets(ss, ops), [op])
    decreases |ops|
  {
    if ops == [] {
      assert ops + [op] == [op];
    } else {
      var r := SetActive(ops[0].projects, ss, ops[0].id, ops[0].scope, ops[0].now);
      assert (ops + [op])[1..] == ops[1..] + [op];
      ApplySetsSnoc(if r.Ok? then r.value else ss, ops[1..], op);
    }
  }

  /** The project last set for the scope, or else the one that was selected at the start. */
  ghost predicate Holds(ss: seq<Selection>, ops: seq<SetOp>, scope: Scope, id: string) {
    match LastSet(ops, scope)
    case Some(last) => id == last
    case None => Selects(ss, scope, id)
  }

  /**
   From any valid list, after any requests, the list is valid and maps each scope to
   the project last set for it; the first accepted request puts it in strict order.
   */
  lemma {:induction false} SelectionsAreLastSet(ss: seq<Selection>, ops: seq<SetOp>)
    requires ValidSelections(ss)
    ensures ValidSelections(ApplySets(ss, ops))
    ensures StrictlySorted(ss, SelectionLess) || (exists op :: op in ops && Accepted(op)) ==>
              StrictlySorted(ApplySets(ss, ops), SelectionLess)
    ensures forall sc, i :: Selects(ApplySets(ss, ops), sc, i) <==> Holds(ss, ops, sc, i)
    decreases |ops|
  {
    if ops != [] {
      var init, op := ops[..|ops| - 1], ops[|ops| - 1];
      var before := ApplySets(ss, init);
      SelectionsAreLastSet(ss, init);
      ApplySetsSnoc(ss, init, op);
      assert ops == init + [op] && [op][1..] == [];
      OneMoreSet(before, op);
    }
  }

  lemma OneMoreSet(before: seq<Selection>, op: SetOp)
    requires ValidSelections(before)
    ensures var after := ApplySets(before, [op]);
            && ValidSelections(after)
            && (!Accepted(op) ==> after == before)
            && (Accepted(op) ==>
                  && StrictlySorted(after, SelectionLess)
                  && forall sc, i ::
                       Selects(after, sc, i) <==> if sc == op.scope then i == op.id else Selects(before, sc, i))
  {
    assert [op][1..] == [];
    if Accepted(op) {
      SetActiveUpdatesMap(op.projects, before, op.id, op.scope, op.now);
    }
  }

  class RoutingStateFile {
    var selections: seq<Selection>

    constructor (selections: seq<Selection>)
      ensures this.selections == selections
    {
      this.selections := selections;
    }

    /** The validation on load and on save, with the set of scopes seen so far. */
    static method ValidateRoutingState(ss: seq<Selection>) returns (ok: bool)
      ensures ok <==> ValidSelections(ss)
    {
      var scopes: set<Scope> := {};
      for i := 0 to |ss|
        invariant forall sc :: sc in scopes <==> exists j :: 0 <= j < i && ss[j].scope == sc
        invariant forall j :: 0 <= j < i ==> IsLabel(ss[j].id)
        invariant ScopesDistinct(ss[..i])
      {
        if !IsLabel(ss[i].id) || ss[i].scope in scopes {
          assert ss[i] in ss;
          return false;
        }
        scopes := scopes + {ss[i].scope};
      }
      assert ss[..|ss|] == ss;
      return true;
    }

    method SetActiveProject(projects: seq<Project>, id: string, scope: Scope, now: nat)
      returns (r: Result<Selection, RoutingError>)
      modifies this
      ensures match SetActive(projects, old(selections), id, scope, now)
              case Ok(after) => r == Ok(Selection(id, scope, now)) && selections == after
              case Err(e) => r == Err(e) && selections == old(selections)
    {
      var valid := ValidateRegistry(projects);
      if !valid {
        return Err(BrokenFile);
      }
      if forall p :: p in projects ==> p.id != id {
        return Err(NotRegistered(id));
      }
      var loaded := ValidateRoutingState(selections);
      if !loaded {
        return Err(BrokenFile);
      }
      var kept := RetainOthers(selections, scope);
      var chosen := Selection(id, scope, now);
      var sorted := Sort(kept + [chosen], SelectionLess);
      assert SetActive(projects, selections, id, scope, now) == Ok(sorted);
      assert ValidSelections(sorted) by {
        SetActiveUpdatesMap(projects, selections, id, scope, now);
      }
      var saved := ValidateRoutingState(sorted);
      assert saved;
      selections := sorted;
      return Ok(chosen);
    }

    static method RetainOthers(ss: seq<Selection>, scope: Scope) returns (kept: seq<Selection>)
      ensures kept == Retained(ss, scope)
    {
      kept := [];
      for i := 0 to |ss|
        invariant kept + Retained(ss[i..], scope) == Retained(ss, scope)
      {
        RetainOne(kept, ss, i, scope);
        if !SameScope(ss[i].scope, scope) {
          kept := kept + [ss[i]];
        }
      }
    }
  }
}
