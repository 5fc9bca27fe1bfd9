/** What a registration turns into: which ones are accepted, and what is stored of each field. */
module Normalization {
  import opened Common
  import opened Text
  import opened Sorting
  import opened Registry
  import Routing

  // ---- bindings ------------------------------------------------------------------

  function TrimmedBinding(b: Binding): Binding {
    Binding(Trim(b.channel), Trim(b.binding), if b.thread.Some? then Some(Trim(b.thread.value)) else None)
  }

  function TrimmedBindings(bs: seq<Binding>): seq<Binding> {
    seq(|bs|, i requires 0 <= i < |bs| => TrimmedBinding(bs[i]))
  }

  /** No part is blank. */
  predicate IsFilled(b: Binding) {
    Trim(b.channel) != "" && Trim(b.binding) != "" && (b.thread.Some? ==> Trim(b.thread.value) != "")
  }

  predicate AllFilled(bs: seq<Binding>) {
    forall b :: b in bs ==> IsFilled(b)
  }

  /** The key that the source looks up; a missing thread counts as an empty one. */
  function KeyOf(b: Binding): (string, string, string) {
    (Trim(b.channel), Trim(b.binding), if b.thread.Some? then Trim(b.thread.value) else "")
  }

  lemma SameKeyIffSameBinding(a: Binding, b: Binding)
    requires IsFilled(a) && IsFilled(b)
    ensures KeyOf(a) == KeyOf(b) <==> TrimmedBinding(a) == TrimmedBinding(b)
  {
  }

  predicate KeysFree(bs: seq<Binding>, seen: set<(string, string, string)>) {
    && (forall i :: 0 <= i < |bs| ==> KeyOf(bs[i]) !in seen)
    && (forall i, j :: 0 <= i < j < |bs| ==> KeyOf(bs[i]) != KeyOf(bs[j]))
  }

  lemma KeysFreeStep(bs: seq<Binding>, seen: set<(string, string, string)>)
    requires bs != []
    ensures KeysFree(bs, seen) <==> KeyOf(bs[0]) !in seen && KeysFree(bs[1..], seen + {KeyOf(bs[0])})
  {
    var rest := bs[1..];
    assert forall i :: 0 <= i < |rest| ==> rest[i] == bs[i + 1];
    if KeysFree(rest, seen + {KeyOf(bs[0])}) && KeyOf(bs[0]) !in seen {
      forall i, j | 0 <= i < j < |bs|
        ensures KeyOf(bs[i]) != KeyOf(bs[j])
      {
        assert bs[j] == rest[j - 1];
        if i > 0 {
          assert bs[i] == rest[i - 1];
        }
      }
      forall i | 0 <= i < |bs|
        ensures KeyOf(bs[i]) !in seen
      {
        if i > 0 {
          assert bs[i] == rest[i - 1];
        }
      }
    }
  }

  /** One step of the walk, on a binding without blank part. */
  lemma NormalizeBindingsStep(bs: seq<Binding>, seen: set<(string, string, string)>)
    requires bs != []
    ensures var r := NormalizeBindings(bs, seen);
            var rest := NormalizeBindings(bs[1..], seen + {KeyOf(bs[0])});
            && (r.Ok? <==> IsFilled(bs[0]) && KeyOf(bs[0]) !in seen && rest.Ok?)
            && (r.Ok? ==> r.value == [TrimmedBinding(bs[0])] + rest.value)
  {
  }

  lemma AllFilledStep(bs: seq<Binding>)
    requires bs != []
    ensures AllFilled(bs) <==> IsFilled(bs[0]) && AllFilled(bs[1..])
  {
    assert bs[0] in bs && forall b :: b in bs <==> b == bs[0] || b in bs[1..];
  }

  lemma TrimmedBindingsStep(bs: seq<Binding>)
    requires bs != []
    ensures TrimmedBindings(bs) == [TrimmedBinding(bs[0])] + TrimmedBindings(bs[1..])
  {
  }

  /** The walk over the bindings with the keys seen so far. */
  lemma {:induction false} NormalizeBindingsExact(bs: seq<Binding>, seen: set<(string, string, string)>)
    ensures NormalizeBindings(bs, seen).Ok? <==> AllFilled(bs) && KeysFree(bs, seen)
    ensures NormalizeBindings(bs, seen).Ok? ==> NormalizeBindings(bs, seen).value == TrimmedBindings(bs)
  {
    if bs != [] {
      NormalizeBindingsExact(bs[1..], seen + {KeyOf(bs[0])});
      NormalizeBindingsStep(bs, seen);
      KeysFreeStep(bs, seen);
      AllFilledStep(bs);
      TrimmedBindingsStep(bs);
    }
  }

  /** No two bindings are the same after trimming. */
  predicate AllDifferent(bs: seq<Binding>) {
    forall i, j :: 0 <= i < j < |bs| ==> TrimmedBinding(bs[i]) != TrimmedBinding(bs[j])
  }

  /** The bindings are refused exactly on a blank part, or on two that are the same after trimming. */
  lemma BindingsAcceptedIff(bs: seq<Binding>)
    ensures NormalizeBindings(bs, {}).Ok? <==> AllFilled(bs) && AllDifferent(bs)
    ensures NormalizeBindings(bs, {}).Ok? ==> NormalizeBindings(bs, {}).value == TrimmedBindings(bs)
  {
    NormalizeBindingsExact(bs, {});
    if AllFilled(bs) {
      forall i, j | 0 <= i < j < |bs|
        ensures KeyOf(bs[i]) == KeyOf(bs[j]) <==> TrimmedBinding(bs[i]) == TrimmedBinding(bs[j])
      {
        SameKeyIffSameBinding(bs[i], bs[j]);
      }
    }
  }

  function BindingKey(b: Binding): seq<string> {
    [b.channel, b.binding] + if b.thread.Some? then [b.thread.value] else []
  }

  lemma NotBeforeItself(s: string)
    ensures !StringLess(s, s)
  {
    if StringLess(s, s) {
      StringLessAsymmetric(s, s);
    }
  }

  lemma BindingLessByKey(a: Binding, b: Binding)
    ensures BindingLess(a, b) <==> Routing.TupleLess(BindingKey(a), BindingKey(b))
  {
    var ta := if a.thread.Some? then [a.thread.value] else [];
    var tb := if b.thread.Some? then [b.thread.value] else [];
    var ka, kb := BindingKey(a), BindingKey(b);
    assert ka[1..] == [a.binding] + ta && kb[1..] == [b.binding] + tb;
    assert ka[1..][1..] == ta && kb[1..][1..] == tb;
    assert a.channel == b.channel && a.binding == b.binding ==>
             Routing.TupleLess(ka, kb) == Routing.TupleLess(ta, tb);
    if a.thread.Some? && b.thread.Some? {
      NotBeforeItself(a.thread.value);
      assert Routing.TupleLess(ta, tb) == StringLess(a.thread.value, b.thread.value) by {
        assert ta[1..] == [] && tb[1..] == [];
        assert !Routing.TupleLess(ta[1..], tb[1..]);
      }
    }
  }

  lemma BindingOrder()
    ensures StrictWeakOrder(BindingLess)
  {
    forall a, b | BindingLess(a, b)
      ensures !BindingLess(b, a)
    {
      BindingLessByKey(a, b);
      BindingLessByKey(b, a);
      Routing.TupleLessAsymmetric(BindingKey(a), BindingKey(b));
    }
    forall a, b, c | !BindingLess(b, a) && !BindingLess(c, b)
      ensures !BindingLess(c, a)
    {
      BindingLessByKey(b, a);
      BindingLessByKey(c, b);
      BindingLessByKey(c, a);
      Routing.NotLessTransitive(BindingKey(a), BindingKey(b), BindingKey(c));
    }
  }

  // ---- the whole registration -------------------------------------------------------

  predicate AllLabels(values: seq<string>) {
    forall v :: v in values && Trim(v) != "" ==> IsLabel(ToAsciiLowercase(Trim(v)))
  }

  predicate Acceptable(r: Registration) {
    && IsLabel(r.id) && Trim(r.name) != "" && Trim(r.teamName) != "" && Trim(r.sessionName) != ""
    && r.root.Some? && r.boardDir.Some? && StartsWith(r.boardDir.value, r.root.value)
    && AllLabels(r.aliases) && AllLabels(r.tags)
    && AllFilled(r.bindings) && AllDifferent(r.bindings)
  }

  lemma LabelsAcceptedIff(field: string, values: seq<string>)
    ensures NormalizeLabels(field, values).Ok? <==> AllLabels(values)
    ensures NormalizeLabels(field, values).Ok? ==>
              forall l :: l in NormalizeLabels(field, values).value <==>
                exists v :: v in values && l == ToAsciiLowercase(Trim(v)) && Trim(v) != ""
  {
    NormalizedLabelsFacts(field, values);
    LoweredLabelsElements(values);
    assert forall v :: v in values ==> (ToAsciiLowercase(Trim(v)) == "" <==> Trim(v) == "");
  }

  /** Normalization accepts exactly the acceptable registrations. */
  lemma NormalizedIff(r: Registration, now: nat)
    ensures NormalizeRegistration(r, now).Ok? <==> Acceptable(r)
  {
    NormalizedIsValid(r, now);
    LabelsAcceptedIff("alias", r.aliases);
    LabelsAcceptedIff("tag", r.tags);
    BindingsAcceptedIff(r.bindings);
  }

  /** A registration goes through exactly when it is acceptable and shares nothing with a registered project. */
  lemma RegisteredIff(ps: seq<Project>, r: Registration, now: nat)
    ensures Registered(ps, r, now).Ok?
            <==> && ValidRegistry(ps) && Acceptable(r) && NormalizeRegistration(r, now).Ok?
                 && forall q :: q in ps ==> Separate(q, NormalizeRegistration(r, now).value)
  {
    NormalizedIff(r, now);
    if Acceptable(r) {
      UniqueErrorExact(ps, NormalizeRegistration(r, now).value);
    }
  }

  /** What is stored: every field is the given one, trimmed, lower-cased or sorted; nothing is dropped. */
  lemma StoredFields(r: Registration, now: nat)
    requires Acceptable(r)
    ensures NormalizeRegistration(r, now).Ok?
    ensures var p := NormalizeRegistration(r, now).value;
            && p.id == r.id && p.name == Trim(r.name) && p.teamName == Trim(r.teamName)
            && p.sessionName == Trim(r.sessionName)
            && p.root == r.root.value && p.boardDir == r.boardDir.value
            && p.flags == r.flags && p.createdAt == now && p.updatedAt == now
            && (p.owner.None? <==> r.owner.None? || Trim(r.owner.value) == "")
            && (p.owner.Some? ==> p.owner.value == Trim(r.owner.value))
  {
    NormalizedIff(r, now);
    NormalizedIsValid(r, now);
    NormalizedFieldsShape(r, now);
  }

  /** Sorting keeps distinct elements distinct. */
  lemma {:induction false} DistinctWhenSorted(bs: seq<Binding>)
    requires Distinct(bs)
    ensures Distinct(Sort(bs, BindingLess))
  {
    if bs != [] {
      var init, last := bs[..|bs| - 1], bs[|bs| - 1];
      DistinctWhenSorted(init);
      BindingOrder();
      SortFacts(init, BindingLess);
      assert last !in init;
      DistinctWhenInserted(Sort(init, BindingLess), last);
    }
  }

  lemma DistinctWhenInserted(bs: seq<Binding>, b: Binding)
    requires Distinct(bs) && b !in bs
    ensures Distinct(Insert(bs, b, BindingLess))
  {
    var k := InsertPosition(bs, b, BindingLess);
    var all := bs[..k] + [b] + bs[k..];
    forall i, j | 0 <= i < j < |all|
      ensures all[i] != all[j]
    {
      PlaceOf(bs, b, k, i);
      PlaceOf(bs, b, k, j);
    }
  }

  /** The bindings of a sorted list of trimmed ones. */
  ghost predicate StoresBindings(stored: seq<Binding>, given: seq<Binding>) {
    && Sorted(stored, BindingLess) && Distinct(stored) && |stored| == |given|
    && forall b :: b in stored <==> exists q :: q in given && b == TrimmedBinding(q)
  }

  lemma SortedBindings(bs: seq<Binding>)
    requires AllDifferent(bs)
    ensures StoresBindings(Sort(TrimmedBindings(bs), BindingLess), bs)
  {
    var trimmed := TrimmedBindings(bs);
    BindingOrder();
    SortFacts(trimmed, BindingLess);
    DistinctWhenSorted(trimmed);
    forall b
      ensures b in trimmed <==> exists q :: q in bs && b == TrimmedBinding(q)
    {
      TrimmedElement(bs, b);
    }
  }

  lemma TrimmedElement(bs: seq<Binding>, b: Binding)
    ensures b in TrimmedBindings(bs) <==> exists q :: q in bs && b == TrimmedBinding(q)
  {
    forall i | 0 <= i < |bs|
      ensures bs[i] in bs && TrimmedBindings(bs)[i] == TrimmedBinding(bs[i])
    {
    }
  }

  lemma NormalizedBindings(r: Registration, now: nat)
    requires NormalizeFields(r, now).Ok?
    ensures NormalizeBindings(r.bindings, {}).Ok?
    ensures NormalizeFields(r, now).value.bindings == Sort(NormalizeBindings(r.bindings, {}).value, BindingLess)
  {
  }

  /** The stored bindings are exactly the given ones, trimmed, each once and in order. */
  lemma StoredBindings(r: Registration, now: nat)
    requires Acceptable(r)
    ensures NormalizeRegistration(r, now).Ok?
    ensures StoresBindings(NormalizeRegistration(r, now).value.bindings, r.bindings)
  {
    NormalizedIff(r, now);
    NormalizedIsValid(r, now);
    NormalizedBindings(r, now);
    BindingsAcceptedIff(r.bindings);
    SortedBindings(r.bindings);
  }

  /** In order, each once, exactly the non-blank given values, trimmed and in lower case. */
  ghost predicate StoresLabels(stored: seq<string>, given: seq<string>) {
    && StrictlySorted(stored, StringLess)
    && forall l :: l in stored <==> exists v :: v in given && l == ToAsciiLowercase(Trim(v)) && Trim(v) != ""
  }

  lemma StoredLabels(r: Registration, now: nat)
    requires Acceptable(r)
    ensures NormalizeRegistration(r, now).Ok?
    ensures StoresLabels(NormalizeRegistration(r, now).value.aliases, r.aliases)
    ensures StoresLabels(NormalizeRegistration(r, now).value.tags, r.tags)
  {
    NormalizedIff(r, now);
    NormalizedIsValid(r, now);
    NormalizedFieldsShape(r, now);
    LabelsAcceptedIff("alias", r.aliases);
    LabelsAcceptedIff("tag", r.tags);
    NormalizedLabelsFacts("alias", r.aliases);
    NormalizedLabelsFacts("tag", r.tags);
  }
}
