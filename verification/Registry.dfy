/** The registry of projects: registration, validation and removal. */
module Registry {
  import opened Common
  import opened Text
  import opened Sorting

  // ---- data --------------------------------------------------------------------

  datatype Path = Path(absolute: bool, parts: seq<string>)

  /** What making a path absolute and canonical yields. */
  type AbsolutePath = p: Path | p.absolute witness Path(true, [])

  datatype Binding = Binding(channel: string, binding: string, thread: Option<string>)

  datatype PolicyFlags =
    PolicyFlags(openclawSupervision: bool, crossProjectRouting: bool, sharedServiceRouting: bool, archived: bool)

  datatype Project = Project(
    id: string, name: string, aliases: seq<string>, root: Path, boardDir: Path, teamName: string, sessionName: string,
    bindings: seq<Binding>, owner: Option<string>, tags: seq<string>, flags: PolicyFlags,
    createdAt: nat, updatedAt: nat)

  /** A request to register; the paths are given as the file system resolves them, `None` when it cannot. */
  datatype Registration = Registration(
    id: string, name: string, aliases: seq<string>, root: Option<AbsolutePath>, boardDir: Option<AbsolutePath>,
    teamName: string, sessionName: string, bindings: seq<Binding>, owner: Option<string>,
    tags: seq<string>, flags: PolicyFlags)

  datatype RegistryError =
    | EmptyField(field: string)
    | BadCharacter(field: string, value: string)
    | PathUnresolved
    | NotAbsolute(field: string)
    | BoardOutsideRoot
    | DuplicateBinding(channel: string)
    | AlreadyRegistered(field: string)
    | InvalidFile

  // ---- fields ------------------------------------------------------------------

  predicate IsLabelChar(c: char) {
    'a' <= c <= 'z' || '0' <= c <= '9' || c == '-' || c == '_' || c == '.'
  }

  predicate IsLabel(s: string) {
    s != "" && forall i :: 0 <= i < |s| ==> IsLabelChar(s[i])
  }

  function CheckLabel(field: string, s: string): Option<RegistryError> {
    if s == "" then Some(EmptyField(field)) else if !IsLabel(s) then Some(BadCharacter(field, s)) else None
  }

  function CheckLabels(field: string, labels: seq<string>): Option<RegistryError> {
    if labels == [] then None
    else if CheckLabel(field, labels[0]).Some? then CheckLabel(field, labels[0])
    else CheckLabels(field, labels[1..])
  }

  function CheckRequired(field: string, s: string): Option<RegistryError> {
    if Trim(s) == "" then Some(EmptyField(field)) else None
  }

  predicate StartsWith(path: Path, prefix: Path) {
    path.absolute == prefix.absolute && prefix.parts <= path.parts
  }

  /** The first of two errors. */
  function Or(a: Option<RegistryError>, b: Option<RegistryError>): Option<RegistryError> {
    if a.Some? then a else b
  }

  function CheckProject(p: Project): Option<RegistryError> {
    Or(CheckLabel("projectId", p.id),
    Or(CheckRequired("name", p.name),
    Or(CheckRequired("teamName", p.teamName),
    Or(CheckRequired("sessionName", p.sessionName),
    Or(if p.root.absolute then None else Some(NotAbsolute("projectRoot")),
    Or(if p.boardDir.absolute then None else Some(NotAbsolute("boardDir")),
    Or(if StartsWith(p.boardDir, p.root) then None else Some(BoardOutsideRoot),
    Or(CheckLabels("alias", p.aliases),
       CheckLabels("tag", p.tags)))))))))
  }

  /** The project on its own is well formed. */
  predicate ValidProject(p: Project) {
    && IsLabel(p.id)
    && Trim(p.name) != "" && Trim(p.teamName) != "" && Trim(p.sessionName) != ""
    && p.root.absolute && p.boardDir.absolute && StartsWith(p.boardDir, p.root)
    && (forall a :: a in p.aliases ==> IsLabel(a))
    && (forall t :: t in p.tags ==> IsLabel(t))
  }

  lemma {:induction false} CheckLabelsExact(field: string, labels: seq<string>)
    ensures CheckLabels(field, labels) == None <==> forall l :: l in labels ==> IsLabel(l)
  {
    if labels != [] {
      CheckLabelsExact(field, labels[1..]);
      assert labels[0] in labels && forall l :: l in labels ==> l == labels[0] || l in labels[1..];
    }
  }

  lemma CheckProjectExact(p: Project)
    ensures CheckProject(p) == None <==> ValidProject(p)
  {
    CheckLabelsExact("alias", p.aliases);
    CheckLabelsExact("tag", p.tags);
  }

  // ---- the whole registry --------------------------------------------------------

  predicate Distinct<T(==)>(s: seq<T>) {
    forall i, j :: 0 <= i < j < |s| ==> s[i] != s[j]
  }

  /** Two projects share no identifying field. */
  predicate Separate(p: Project, q: Project) {
    && p.id != q.id && p.root != q.root && p.teamName != q.teamName && p.sessionName != q.sessionName
    && forall a :: a in p.aliases ==> a !in q.aliases
  }

  predicate ValidRegistry(ps: seq<Project>) {
    && (forall p :: p in ps ==> ValidProject(p) && Distinct(p.aliases))
    && (forall i, j :: 0 <= i < j < |ps| ==> Separate(ps[i], ps[j]))
  }

  lemma SeparateSymmetric(p: Project, q: Project)
    requires Separate(p, q)
    ensures Separate(q, p)
  {
  }

  /** One more project at the end. */
  lemma ValidSnoc(ps: seq<Project>, p: Project)
    ensures ValidRegistry(ps + [p])
            <==> && ValidRegistry(ps) && ValidProject(p) && Distinct(p.aliases)
                 && forall q :: q in ps ==> Separate(q, p)
  {
    var all := ps + [p];
    assert all[|ps|] == p && p in all;
    if ValidRegistry(all) {
      forall q | q in ps
        ensures Separate(q, p) && ValidProject(q) && Distinct(q.aliases)
      {
        var k :| 0 <= k < |ps| && ps[k] == q;
        assert all[k] == q && q in all;
      }
      forall i, j | 0 <= i < j < |ps|
        ensures Separate(ps[i], ps[j])
      {
        assert all[i] == ps[i] && all[j] == ps[j];
      }
    }
    if ValidRegistry(ps) && forall q :: q in ps ==> Separate(q, p) {
      forall i, j | 0 <= i < j < |all|
        ensures Separate(all[i], all[j])
      {
        assert all[i] == ps[i] && (j < |ps| ==> all[j] == ps[j]);
      }
    }
  }

  /** The names that the walk over the projects has seen. */
  datatype Seen =
    Seen(ids: set<string>, roots: set<Path>, teams: set<string>, sessions: set<string>, aliases: set<string>)

  function AddSeen(seen: Seen, p: Project): Seen {
    Seen(seen.ids + {p.id}, seen.roots + {p.root}, seen.teams + {p.teamName}, seen.sessions + {p.sessionName},
         seen.aliases + set a | a in p.aliases)
  }

  function SeenOf(ps: seq<Project>): Seen {
    if ps == [] then Seen({}, {}, {}, {}, {}) else AddSeen(SeenOf(ps[..|ps| - 1]), ps[|ps| - 1])
  }

  predicate Clashes(seen: Seen, p: Project) {
    || p.id in seen.ids || p.root in seen.roots || p.teamName in seen.teams || p.sessionName in seen.sessions
    || exists a :: a in p.aliases && a in seen.aliases
  }

  lemma {:induction false} SeenExact(ps: seq<Project>, p: Project)
    ensures Clashes(SeenOf(ps), p) <==> exists q :: q in ps && !Separate(q, p)
  {
    if ps != [] {
      var init, last := ps[..|ps| - 1], ps[|ps| - 1];
      SeenExact(init, p);
      assert forall q :: q in ps <==> q in init || q == last;
      assert Clashes(SeenOf(ps), p) <==> Clashes(SeenOf(init), p) || !Separate(last, p);
    }
  }

  lemma ValidPrefix(ps: seq<Project>, n: nat)
    requires n <= |ps|
    ensures ValidRegistry(ps) ==> ValidRegistry(ps[..n])
  {
  }

  /** What the walk has to find out about the next project. */
  lemma OneMoreProject(ps: seq<Project>, i: nat)
    requires i < |ps| && ValidRegistry(ps[..i])
    ensures SeenOf(ps[..i + 1]) == AddSeen(SeenOf(ps[..i]), ps[i])
    ensures ValidRegistry(ps[..i + 1])
            <==> CheckProject(ps[i]).None? && Distinct(ps[i].aliases) && !Clashes(SeenOf(ps[..i]), ps[i])
    ensures ValidRegistry(ps) ==> ValidRegistry(ps[..i + 1])
  {
    var init, p := ps[..i], ps[i];
    assert ps[..i + 1] == init + [p] && (init + [p])[..i] == init;
    CheckProjectExact(p);
    SeenExact(init, p);
    ValidSnoc(init, p);
    ValidPrefix(ps, i + 1);
  }

  /** The walk over all projects with five sets of names seen so far. */
  method ValidateRegistry(ps: seq<Project>) returns (ok: bool)
    ensures ok <==> ValidRegistry(ps)
  {
    var seen := Seen({}, {}, {}, {}, {});
    for i := 0 to |ps|
      invariant seen == SeenOf(ps[..i])
      invariant ValidRegistry(ps[..i])
    {
      var p := ps[i];
      OneMoreProject(ps, i);
      var inserted := InsertAliases(p.aliases, seen.aliases);
      if CheckProject(p).Some? || p.id in seen.ids || p.root in seen.roots || p.teamName in seen.teams
         || p.sessionName in seen.sessions || inserted.None? {
        return false;
      }
      seen := Seen(seen.ids + {p.id}, seen.roots + {p.root}, seen.teams + {p.teamName}, seen.sessions + {p.sessionName},
                   inserted.value);
    }
    assert ps[..|ps|] == ps;
    return true;
  }

  /** Adds the aliases of one project; `None` as soon as one is there already. */
  method InsertAliases(labels: seq<string>, seen: set<string>) returns (r: Option<set<string>>)
    ensures r.Some? <==> Distinct(labels) && forall a :: a in labels ==> a !in seen
    ensures r.Some? ==> r.value == seen + set a | a in labels
  {
    var all := seen;
    for i := 0 to |labels|
      invariant all == seen + set a | a in labels[..i]
      invariant Distinct(labels[..i]) && forall a :: a in labels[..i] ==> a !in seen
    {
      if labels[i] in all {
        assert labels[i] in labels;
        return None;
      }
      all := all + {labels[i]};
    }
    assert labels[..|labels|] == labels;
    return Some(all);
  }

  // ---- normalization -------------------------------------------------------------

  function LoweredLabels(values: seq<string>): seq<string> {
    if values == [] then []
    else
      var l := ToAsciiLowercase(Trim(values[0]));
      (if l == "" then [] else [l]) + LoweredLabels(values[1..])
  }

  /** Removes consecutive repetitions. */
  function Dedup(s: seq<string>): seq<string> {
    if |s| < 2 then s
    else if s[0] == s[1] then Dedup(s[1..])
    else [s[0]] + Dedup(s[1..])
  }

  function NormalizeLabels(field: string, values: seq<string>): Result<seq<string>, RegistryError> {
    var labels := Dedup(Sort(LoweredLabels(values), StringLess));
    match CheckLabels(field, labels)
    case None => Ok(labels)
    case Some(e) => Err(e)
  }

  lemma {:induction false} DedupStrict(s: seq<string>)
    requires Sorted(s, StringLess)
    ensures StrictlySorted(Dedup(s), StringLess)
    ensures forall x :: x in Dedup(s) <==> x in s
    ensures s != [] ==> Dedup(s) != [] && Dedup(s)[0] == s[0]
  {
    if |s| >= 2 {
      DedupStrict(s[1..]);
      assert s == [s[0]] + s[1..];
      StringOrder();
      if s[0] != s[1] {
        var rest := Dedup(s[1..]);
        forall j | 0 <= j < |rest|
          ensures StringLess(s[0], rest[j])
        {
          assert rest[j] in s[1..];
          var k :| 0 <= k < |s[1..]| && s[1..][k] == rest[j];
          assert !StringLess(s[k + 1], s[0]) && !StringLess(s[k + 1], s[1]);
          assert StringLess(s[0], s[1]);
        }
      }
    }
  }

  /** The normalized labels are strictly sorted, and are the non-empty trimmed lower-case inputs. */
  lemma NormalizedLabelsFacts(field: string, values: seq<string>)
    ensures var lowered := LoweredLabels(values);
            match NormalizeLabels(field, values)
            case Ok(labels) =>
              && StrictlySorted(labels, StringLess) && Distinct(labels)
              && (forall l :: l in labels <==> l in lowered)
              && (forall l :: l in labels ==> IsLabel(l))
            case Err(_) => exists l :: l in lowered && !IsLabel(l)
  {
    StringOrder();
    SortFacts(LoweredLabels(values), StringLess);
    DedupStrict(Sort(LoweredLabels(values), StringLess));
    CheckLabelsExact(field, Dedup(Sort(LoweredLabels(values), StringLess)));
  }

  lemma {:induction false} LoweredLabelsElements(values: seq<string>)
    ensures forall l :: l in LoweredLabels(values) <==>
              exists v :: v in values && l == ToAsciiLowercase(Trim(v)) && l != ""
  {
    if values != [] {
      LoweredLabelsElements(values[1..]);
      assert values == [values[0]] + values[1..];
    }
  }

  function NormalizeBindings(bindings: seq<Binding>, seen: set<(string, string, string)>)
    : Result<seq<Binding>, RegistryError>
  {
    if bindings == [] then Ok([])
    else
      var b := bindings[0];
      var channel, binding := Trim(b.channel), Trim(b.binding);
      if channel == "" then Err(EmptyField("channelBinding.channel"))
      else if binding == "" then Err(EmptyField("channelBinding.binding"))
      else if b.thread.Some? && Trim(b.thread.value) == "" then Err(EmptyField("channelBinding.threadBinding"))
      else
        var thread := if b.thread.Some? then Trim(b.thread.value) else "";
        if (channel, binding, thread) in seen then Err(DuplicateBinding(channel))
        else
          match NormalizeBindings(bindings[1..], seen + {(channel, binding, thread)})
          case Err(e) => Err(e)
          case Ok(rest) => Ok([Binding(channel, binding, if b.thread.Some? then Some(thread) else None)] + rest)
  }

  predicate BindingLess(a: Binding, b: Binding) {
    if a.channel != b.channel then StringLess(a.channel, b.channel)
    else if a.binding != b.binding then StringLess(a.binding, b.binding)
    else match (a.thread, b.thread)
      case (None, Some(_)) => true
      case (Some(s), Some(t)) => StringLess(s, t)
      case _ => false
  }

  function NormalizedOwner(owner: Option<string>): Option<string> {
    if owner.Some? && Trim(owner.value) != "" then Some(Trim(owner.value)) else None
  }

  /** Everything of `normalize_registration` but its final validation. */
  function NormalizeFields(r: Registration, now: nat): Result<Project, RegistryError> {
    var early :=
      Or(CheckLabel("projectId", r.id),
      Or(CheckRequired("name", r.name),
      Or(CheckRequired("teamName", r.teamName),
         CheckRequired("sessionName", r.sessionName))));
    if early.Some? then Err(early.value)
    else if r.root.None? || r.boardDir.None? then Err(PathUnresolved)
    else if !StartsWith(r.boardDir.value, r.root.value) then Err(BoardOutsideRoot)
    else
      match NormalizeLabels("alias", r.aliases)
      case Err(e) => Err(e)
      case Ok(aliases) =>
        match NormalizeLabels("tag", r.tags)
        case Err(e) => Err(e)
        case Ok(tags) =>
          match NormalizeBindings(r.bindings, {})
          case Err(e) => Err(e)
          case Ok(bindings) =>
            Ok(Project(r.id, Trim(r.name), aliases, r.root.value, r.boardDir.value,
                       Trim(r.teamName), Trim(r.sessionName),
                       Sort(bindings, BindingLess), NormalizedOwner(r.owner), tags, r.flags, now, now))
  }

  function NormalizeRegistration(r: Registration, now: nat): Result<Project, RegistryError> {
    match NormalizeFields(r, now)
    case Err(e) => Err(e)
    case Ok(p) =>
      match CheckProject(p)
      case Some(e) => Err(e)
      case None => Ok(p)
  }

  /** The validation at the end of the normalization never rejects, and the project is well formed. */
  lemma NormalizedIsValid(r: Registration, now: nat)
    ensures NormalizeRegistration(r, now) == NormalizeFields(r, now)
    ensures NormalizeFields(r, now).Ok? ==>
              ValidProject(NormalizeFields(r, now).value) && Distinct(NormalizeFields(r, now).value.aliases)
  {
    if NormalizeFields(r, now).Ok? {
      NormalizedFieldsValid(r, now);
      CheckProjectExact(NormalizeFields(r, now).value);
    }
  }

  lemma TrimTwice(s: string)
    ensures Trim(Trim(s)) == Trim(s)
  {
    TrimFacts(s);
    TrimFacts(Trim(s));
  }

  /** What each field of the normalized project is made of. */
  lemma NormalizedFieldsShape(r: Registration, now: nat)
    requires NormalizeFields(r, now).Ok?
    ensures var p := NormalizeFields(r, now).value;
            && IsLabel(r.id) && r.root.Some? && r.boardDir.Some? && StartsWith(r.boardDir.value, r.root.value)
            && p.id == r.id && p.name == Trim(r.name) && p.teamName == Trim(r.teamName)
            && p.sessionName == Trim(r.sessionName) && p.root == r.root.value && p.boardDir == r.boardDir.value
            && Trim(r.name) != "" && Trim(r.teamName) != "" && Trim(r.sessionName) != ""
            && NormalizeLabels("alias", r.aliases) == Ok(p.aliases) && NormalizeLabels("tag", r.tags) == Ok(p.tags)
  {
  }

  lemma NormalizedFieldsValid(r: Registration, now: nat)
    requires NormalizeFields(r, now).Ok?
    ensures ValidProject(NormalizeFields(r, now).value) && Distinct(NormalizeFields(r, now).value.aliases)
  {
    NormalizedFieldsShape(r, now);
    NormalizedLabelsFacts("alias", r.aliases);
    NormalizedLabelsFacts("tag", r.tags);
    TrimTwice(r.name);
    TrimTwice(r.teamName);
    TrimTwice(r.sessionName);
  }

  // ---- register and unregister ---------------------------------------------------

  /** The first field of a new project that the registry has already. */
  function UniqueError(ps: seq<Project>, p: Project): Option<RegistryError> {
    if exists q :: q in ps && q.id == p.id then Some(AlreadyRegistered("projectId"))
    else if exists q :: q in ps && q.root == p.root then Some(AlreadyRegistered("projectRoot"))
    else if exists q :: q in ps && q.teamName == p.teamName then Some(AlreadyRegistered("teamName"))
    else if exists q :: q in ps && q.sessionName == p.sessionName then Some(AlreadyRegistered("sessionName"))
    else if exists q, a :: q in ps && a in q.aliases && a in p.aliases then Some(AlreadyRegistered("alias"))
    else None
  }

  predicate ProjectLess(p: Project, q: Project) {
    StringLess(p.id, q.id)
  }

  lemma ProjectOrder()
    ensures StrictWeakOrder(ProjectLess)
  {
    StringOrder();
  }

  function Registered(ps: seq<Project>, r: Registration, now: nat): Result<(seq<Project>, Project), RegistryError> {
    if !ValidRegistry(ps) then Err(InvalidFile)
    else
      match NormalizeRegistration(r, now)
      case Err(e) => Err(e)
      case Ok(p) =>
        match UniqueError(ps, p)
        case Some(e) => Err(e)
        case None => Ok((Sort(ps + [p], ProjectLess), p))
  }

  function IndexOfId(ps: seq<Project>, id: string): (n: nat)
    ensures n <= |ps|
    ensures n < |ps| ==> ps[n].id == id
    ensures forall i :: 0 <= i < n ==> ps[i].id != id
  {
    if ps == [] || ps[0].id == id then 0 else 1 + IndexOfId(ps[1..], id)
  }

  function Unregistered(ps: seq<Project>, id: string): Result<(seq<Project>, Option<Project>), RegistryError> {
    if !ValidRegistry(ps) then Err(InvalidFile)
    else
      var n := IndexOfId(ps, id);
      if n == |ps| then Ok((ps, None)) else Ok((WithoutAt(ps, n), Some(ps[n])))
  }

  lemma {:induction false} InsertPosition<T>(s: seq<T>, x: T, less: (T, T) -> bool) returns (k: nat)
    ensures k <= |s| && Insert(s, x, less) == s[..k] + [x] + s[k..]
  {
    if s == [] || less(x, s[0]) {
      k := 0;
    } else {
      k := InsertPosition(s[1..], x, less);
      k := k + 1;
      assert s[..k] == [s[0]] + s[1..][..k - 1] && s[k..] == s[1..][k - 1..];
    }
  }

  lemma ValidWithOneMore(ps: seq<Project>, p: Project, k: nat)
    requires ValidRegistry(ps) && k <= |ps|
    requires ValidProject(p) && Distinct(p.aliases) && forall q :: q in ps ==> Separate(q, p)
    ensures ValidRegistry(ps[..k] + [p] + ps[k..])
  {
    var all := ps[..k] + [p] + ps[k..];
    forall i, j | 0 <= i < j < |all|
      ensures Separate(all[i], all[j])
    {
      PlaceOf(ps, p, k, i);
      PlaceOf(ps, p, k, j);
      if i == k {
        assert ps[j - 1] in ps;
        SeparateSymmetric(ps[j - 1], p);
      }
    }
    assert forall q :: q in all ==> q == p || q in ps;
  }

  lemma PlaceOf<T>(s: seq<T>, x: T, k: nat, i: nat)
    requires k <= |s| && i <= |s|
    ensures (s[..k] + [x] + s[k..])[i] == if i < k then s[i] else if i == k then x else s[i - 1]
  {
  }

  function WithoutAt<T>(s: seq<T>, n: nat): seq<T>
    requires n < |s|
  {
    s[..n] + s[n + 1..]
  }

  lemma {:induction false} ValidWhenSorted(ps: seq<Project>)
    requires ValidRegistry(ps)
    ensures ValidRegistry(Sort(ps, ProjectLess))
  {
    if ps != [] {
      var init, last := ps[..|ps| - 1], ps[|ps| - 1];
      ValidWhenSorted(init);
      ProjectOrder();
      SortFacts(init, ProjectLess);
      forall q | q in Sort(init, ProjectLess)
        ensures Separate(q, last)
      {
        var k :| 0 <= k < |init| && init[k] == q;
        assert ps[k] == q;
      }
      var k := InsertPosition(Sort(init, ProjectLess), last, ProjectLess);
      ValidWithOneMore(Sort(init, ProjectLess), last, k);
    }
  }

  lemma ValidWithoutOne(ps: seq<Project>, n: nat)
    requires ValidRegistry(ps) && n < |ps|
    ensures ValidRegistry(WithoutAt(ps, n))
  {
  }

  lemma SortedWithoutOne<T>(s: seq<T>, n: nat, less: (T, T) -> bool)
    requires Sorted(s, less) && n < |s|
    ensures Sorted(WithoutAt(s, n), less)
  {
  }

  lemma WithoutIdElements(ps: seq<Project>, n: nat, q: Project)
    requires ValidRegistry(ps) && n < |ps|
    ensures q in WithoutAt(ps, n) <==> q in ps && q.id != ps[n].id
  {
  }

  lemma UniqueErrorExact(ps: seq<Project>, p: Project)
    ensures UniqueError(ps, p) == None <==> forall q :: q in ps ==> Separate(q, p)
  {
  }

  /** A registration that passes its checks leaves a valid, sorted registry: the validation on save never rejects. */
  lemma RegisterKeepsValid(ps: seq<Project>, r: Registration, now: nat)
    requires Registered(ps, r, now).Ok?
    ensures var (after, p) := Registered(ps, r, now).value;
            && ValidRegistry(after) && Sorted(after, ProjectLess)
            && multiset(after) == multiset(ps) + multiset{p}
  {
    var p := Registered(ps, r, now).value.1;
    NormalizedIsValid(r, now);
    UniqueErrorExact(ps, p);
    ValidWithOneMore(ps, p, |ps|);
    assert ps[..|ps|] + [p] + ps[|ps|..] == ps + [p];
    ValidWhenSorted(ps + [p]);
    ProjectOrder();
    SortFacts(ps + [p], ProjectLess);
  }

  /** Removing a project keeps the registry valid and in order, and takes out that project only. */
  lemma UnregisterKeepsValid(ps: seq<Project>, id: string)
    requires Unregistered(ps, id).Ok?
    ensures ValidRegistry(Unregistered(ps, id).value.0)
    ensures Sorted(ps, ProjectLess) ==> Sorted(Unregistered(ps, id).value.0, ProjectLess)
    ensures forall q :: q in Unregistered(ps, id).value.0 <==> q in ps && q.id != id
  {
    var n := IndexOfId(ps, id);
    if n < |ps| {
      ValidWithoutOne(ps, n);
      if Sorted(ps, ProjectLess) {
        SortedWithoutOne(ps, n, ProjectLess);
      }
      forall q
        ensures q in WithoutAt(ps, n) <==> q in ps && q.id != id
      {
        WithoutIdElements(ps, n, q);
      }
    }
  }

  lemma RemoveInserted<T>(s: seq<T>, x: T, k: nat)
    requires k <= |s|
    ensures WithoutAt(s[..k] + [x] + s[k..], k) == s
  {
  }

  lemma IndexOfInserted(s: seq<Project>, p: Project, k: nat)
    requires k <= |s| && forall i :: 0 <= i < |s| ==> s[i].id != p.id
    ensures IndexOfId(s[..k] + [p] + s[k..], p.id) == k
  {
    var all := s[..k] + [p] + s[k..];
    assert all[k] == p && forall i :: 0 <= i < k ==> all[i] == s[i];
  }

  /** Unregistering the project just registered gives back the old registry in order, and the project. */
  lemma UnregisterUndoesRegister(ps: seq<Project>, r: Registration, now: nat)
    requires Registered(ps, r, now).Ok?
    ensures var (after, p) := Registered(ps, r, now).value;
            Unregistered(after, p.id) == Ok((Sort(ps, ProjectLess), Some(p)))
    ensures Sorted(ps, ProjectLess) ==> Sort(ps, ProjectLess) == ps
  {
    var (after, p) := Registered(ps, r, now).value;
    var old_ := Sort(ps, ProjectLess);
    RegisterKeepsValid(ps, r, now);
    UniqueErrorExact(ps, p);
    var k := SortedWithOneMore(ps, p);
    IndexOfInserted(old_, p, k);
    RemoveInserted(old_, p, k);
    assert after[k] == p;
    if Sorted(ps, ProjectLess) {
      SortOfSorted(ps, ProjectLess);
    }
  }

  lemma SortedWithOneMore(ps: seq<Project>, p: Project) returns (k: nat)
    requires forall q :: q in ps ==> Separate(q, p)
    ensures var old_ := Sort(ps, ProjectLess);
            && k <= |old_| && Sort(ps + [p], ProjectLess) == old_[..k] + [p] + old_[k..]
            && forall i :: 0 <= i < |old_| ==> old_[i].id != p.id
  {
    var old_ := Sort(ps, ProjectLess);
    assert (ps + [p])[..|ps|] == ps;
    k := InsertPosition(old_, p, ProjectLess);
    ProjectOrder();
    SortFacts(ps, ProjectLess);
    forall i | 0 <= i < |old_|
      ensures old_[i].id != p.id
    {
      assert old_[i] in ps;
    }
  }

  // ---- any run -------------------------------------------------------------------

  datatype RegistryOp = Register(registration: Registration, now: nat) | Unregister(id: string)

  /** A failing operation leaves the file as it is. */
  function Apply(ps: seq<Project>, op: RegistryOp): seq<Project> {
    match op
    case Register(r, now) => if Registered(ps, r, now).Ok? then Registered(ps, r, now).value.0 else ps
    case Unregister(id) => if Unregistered(ps, id).Ok? then Unregistered(ps, id).value.0 else ps
  }

  function ApplyAll(ps: seq<Project>, ops: seq<RegistryOp>): seq<Project>
    decreases |ops|
  {
    if ops == [] then ps else ApplyAll(Apply(ps, ops[0]), ops[1..])
  }

  /** Every registry that register and unregister can reach from a valid one in order is valid and in order. */
  lemma {:induction false} ReachableRegistriesValid(ps: seq<Project>, ops: seq<RegistryOp>)
    requires ValidRegistry(ps) && Sorted(ps, ProjectLess)
    ensures ValidRegistry(ApplyAll(ps, ops)) && Sorted(ApplyAll(ps, ops), ProjectLess)
    decreases |ops|
  {
    if ops != [] {
      match ops[0] {
        case Register(r, now) =>
          if Registered(ps, r, now).Ok? {
            RegisterKeepsValid(ps, r, now);
          }
        case Unregister(id) =>
          UnregisterKeepsValid(ps, id);
      }
      ReachableRegistriesValid(Apply(ps, ops[0]), ops[1..]);
    }
  }

  class RegistryFile {
    var projects: seq<Project>

    constructor (projects: seq<Project>)
      ensures this.projects == projects
    {
      this.projects := projects;
    }

    method RegisterProject(registration: Registration, now: nat) returns (r: Result<Project, RegistryError>)
      modifies this
      ensures match Registered(old(projects), registration, now)
              case Ok((after, p)) => r == Ok(p) && projects == after
              case Err(e) => r == Err(e) && projects == old(projects)
    {
      var valid := ValidateRegistry(projects);
      if !valid {
        return Err(InvalidFile);
      }
      var normalized := NormalizeRegistration(registration, now);
      if normalized.Err? {
        return Err(normalized.error);
      }
      var clash := UniqueError(projects, normalized.value);
      if clash.Some? {
        return Err(clash.value);
      }
      var candidate := Sort(projects + [normalized.value], ProjectLess);
      RegisterKeepsValid(projects, registration, now);
      var saved := SaveRegistry(candidate);
      assert saved;
      return normalized;
    }

    /** Validates again, then writes. */
    method SaveRegistry(candidate: seq<Project>) returns (saved: bool)
      modifies this
      ensures saved <==> ValidRegistry(candidate)
      ensures projects == if saved then candidate else old(projects)
    {
      saved := ValidateRegistry(candidate);
      if saved {
        projects := candidate;
      }
    }

    method UnregisterProject(id: string) returns (r: Result<Option<Project>, RegistryError>)
      modifies this
      ensures match Unregistered(old(projects), id)
              case Ok((after, p)) => r == Ok(p) && projects == after
              case Err(e) => r == Err(e) && projects == old(projects)
    {
      var valid := ValidateRegistry(projects);
      if !valid {
        return Err(InvalidFile);
      }
      var n := IndexOfId(projects, id);
      if n == |projects| {
        return Ok(None);
      }
      var removed := projects[n];
      UnregisterKeepsValid(projects, id);
      var saved := SaveRegistry(WithoutAt(projects, n));
      assert saved;
      return Ok(Some(removed));
    }
  }
}
