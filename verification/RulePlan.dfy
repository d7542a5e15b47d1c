/**
  Planning generated rules: service defaults and method rules of all files are indexed, merged for the
  methods of the files to generate, grouped by output directory and sorted.
*/
module RulePlan {
  import opened Options
  import opened Orders
  import opened Sequences

  datatype Rule = Rule(mode: int, body: string)

  /** A rule annotation: not declared, of a wrong type, or declared. */
  datatype Extension = Absent | Malformed | Declared(rule: Rule)

  datatype Method = Method(name: string, extension: Extension)

  datatype Service = Service(fullName: string, extension: Extension, methods: seq<Method>)

  datatype File = File(path: string, generate: bool, directory: string, importPath: string, packageName: string, services: seq<Service>)

  datatype Verdict = Accepted | Rejected | Refused

  /** The callbacks of a plugin: whether a declared rule is valid, and what becomes of a merged rule. */
  datatype Config = Config(validate: (Service, Option<Method>, Rule) -> bool, accept: (File, Service, Method, Rule) -> Verdict)

  datatype ServiceRules = ServiceRules(serviceDefault: Option<Rule>, methods: map<string, Rule>)

  datatype Entry = Entry(operation: string, rule: Rule)

  datatype Group = Group(directory: string, target: File, entries: seq<Entry>)

  function Merge(serviceDefault: Option<Rule>, methodRule: Option<Rule>): Option<Rule> {
    if methodRule.Some? && methodRule.value.mode != 0 then methodRule
    else if serviceDefault.Some? && serviceDefault.value.mode != 0 then serviceDefault
    else None
  }

  function Operation(service: Service, m: Method): string {
    "/" + service.fullName + "/" + m.name
  }

  // The index pass.

  function MethodRules(methods: seq<Method>): map<string, Rule> {
    if methods == [] then map[]
    else
      var m := methods[|methods| - 1];
      var rules := MethodRules(methods[..|methods| - 1]);
      if m.extension.Declared? then rules[m.name := m.extension.rule] else rules
  }

  function RulesOf(s: Service): ServiceRules {
    ServiceRules(if s.extension.Declared? then Some(s.extension.rule) else None, MethodRules(s.methods))
  }

  function Services(files: seq<File>): seq<Service> {
    if files == [] then [] else Services(files[..|files| - 1]) + files[|files| - 1].services
  }

  /** A later service of the same full name replaces an earlier one. */
  function Index(services: seq<Service>): map<string, ServiceRules> {
    if services == [] then map[]
    else
      var s := services[|services| - 1];
      Index(services[..|services| - 1])[s.fullName := RulesOf(s)]
  }

  predicate FaultyExtension(c: Config, s: Service, m: Option<Method>, extension: Extension) {
    extension.Malformed? || (extension.Declared? && !c.validate(s, m, extension.rule))
  }

  predicate FaultyService(c: Config, s: Service) {
    || FaultyExtension(c, s, None, s.extension)
    || exists m :: m in s.methods && FaultyExtension(c, s, Some(m), m.extension)
  }

  method IndexService(c: Config, s: Service) returns (rules: Option<ServiceRules>)
    ensures rules == if FaultyService(c, s) then None else Some(RulesOf(s))
  {
    if s.extension.Malformed? {
      return None;
    }
    var serviceDefault: Option<Rule> := None;
    if s.extension.Declared? {
      if !c.validate(s, None, s.extension.rule) {
        return None;
      }
      serviceDefault := Some(s.extension.rule);
    }
    var methods: map<string, Rule> := map[];
    for i := 0 to |s.methods|
      invariant methods == MethodRules(s.methods[..i])
      invariant forall m | m in s.methods[..i] :: !FaultyExtension(c, s, Some(m), m.extension)
    {
      var m := s.methods[i];
      assert s.methods[..i + 1][..i] == s.methods[..i];
      if m.extension.Malformed? {
        return None;
      }
      if !m.extension.Declared? {
        continue;
      }
      if !c.validate(s, Some(m), m.extension.rule) {
        return None;
      }
      methods := methods[m.name := m.extension.rule];
    }
    assert s.methods[..|s.methods|] == s.methods;
    rules := Some(ServiceRules(serviceDefault, methods));
  }

  predicate FaultyDeclaration(c: Config, files: seq<File>) {
    exists s :: s in Services(files) && FaultyService(c, s)
  }

  lemma IndexNext(services: seq<Service>, s: Service)
    ensures Index(services + [s]) == Index(services)[s.fullName := RulesOf(s)]
  {
    assert (services + [s])[..|services|] == services;
  }

  /** The loop over the services of one file; before holds the services of the files before it. */
  method IndexFile(c: Config, services: seq<Service>, start: map<string, ServiceRules>, ghost before: seq<Service>)
    returns (indexed: Option<map<string, ServiceRules>>)
    requires start == Index(before)
    ensures indexed.None? ==> exists s :: s in services && FaultyService(c, s)
    ensures indexed.Some? ==> indexed.value == Index(before + services) && forall s | s in services :: !FaultyService(c, s)
  {
    hide FaultyService, RulesOf, Index;
    var rules := start;
    assert before + services[..0] == before;
    for j := 0 to |services|
      invariant rules == Index(before + services[..j])
      invariant forall s | s in services[..j] :: !FaultyService(c, s)
    {
      var one := IndexService(c, services[j]);
      if one.None? {
        return None;
      }
      IndexNext(before + services[..j], services[j]);
      assert before + services[..j + 1] == before + services[..j] + [services[j]];
      rules := rules[services[j].fullName := one.value];
    }
    assert services[..|services|] == services;
    indexed := Some(rules);
  }

  method IndexPass(c: Config, files: seq<File>) returns (indexed: Option<map<string, ServiceRules>>)
    ensures indexed == if FaultyDeclaration(c, files) then None else Some(Index(Services(files)))
  {
    hide FaultyService, Index;
    var rules: map<string, ServiceRules> := map[];
    EmptyIndex();
    for i := 0 to |files|
      invariant rules == Index(Services(files[..i])) && !FaultyDeclaration(c, files[..i])
    {
      assert files[..i + 1][..i] == files[..i];
      assert Services(files[..i + 1]) == Services(files[..i]) + files[i].services;
      var one := IndexFile(c, files[i].services, rules, Services(files[..i]));
      if one.None? {
        ServicesPrefix(files, i + 1);
        return None;
      }
      rules := one.value;
    }
    assert files[..|files|] == files;
    indexed := Some(rules);
  }

  lemma EmptyIndex()
    ensures Index([]) == map[] && Services([]) == []
  {
  }

  lemma {:induction false} ServicesPrefix(files: seq<File>, n: nat)
    requires n <= |files|
    ensures forall s | s in Services(files[..n]) :: s in Services(files)
    decreases |files| - n
  {
    if n == |files| {
      assert files[..n] == files;
    } else {
      ServicesPrefix(files, n + 1);
      assert files[..n + 1][..n] == files[..n];
    }
  }

  lemma {:induction false} ServicesIn(files: seq<File>, s: Service)
    ensures s in Services(files) <==> exists f :: f in files && s in f.services
  {
    if files != [] {
      var n := |files| - 1;
      ServicesIn(files[..n], s);
      assert files == files[..n] + [files[n]];
    }
  }

  // The group pass.

  /** One turn of the innermost loop. */
  datatype Visit = Visit(file: File, service: Service, m: Method)

  predicate Visited(files: seq<File>, v: Visit) {
    v.file in files && v.file.generate && v.service in v.file.services && v.m in v.service.methods
  }

  function Merged(indexed: map<string, ServiceRules>, v: Visit): Option<Rule> {
    if v.service.fullName !in indexed then None
    else
      var rules := indexed[v.service.fullName];
      Merge(rules.serviceDefault, if v.m.name in rules.methods then Some(rules.methods[v.m.name]) else None)
  }

  predicate Contributes(c: Config, indexed: map<string, ServiceRules>, v: Visit, directory: string, e: Entry) {
    && v.file.directory == directory && Merged(indexed, v) == Some(e.rule)
    && c.accept(v.file, v.service, v.m, e.rule).Accepted? && e.operation == Operation(v.service, v.m)
  }

  predicate Refuses(c: Config, indexed: map<string, ServiceRules>, v: Visit) {
    var merged := Merged(indexed, v);
    merged.Some? && c.accept(v.file, v.service, v.m, merged.value).Refused?
  }

  /** Names of services and methods are identifiers, possibly dotted; what matters here is that they hold no slash. */
  predicate ProperNames(s: Service, m: Method) {
    '/' !in s.fullName && '/' !in m.name
  }

  lemma OperationSplits(s: Service, m: Method)
    requires ProperNames(s, m)
    ensures Split(Operation(s, m), '/') == ["", s.fullName, m.name]
  {
    var parts := ["", s.fullName, m.name];
    SplitJoin(parts, '/');
    assert parts[1..] == [s.fullName, m.name] && parts[1..][1..] == [m.name];
    calc {
      Join(parts, '/');
      "" + ['/'] + Join([s.fullName, m.name], '/');
      "/" + (s.fullName + ['/'] + Join([m.name], '/'));
      Operation(s, m);
    }
  }

  /** An operation names its service and its method, so it has one merged rule. */
  lemma OperationInjective(c: Config, indexed: map<string, ServiceRules>, v: Visit, w: Visit)
    requires ProperNames(v.service, v.m) && ProperNames(w.service, w.m)
    requires Operation(v.service, v.m) == Operation(w.service, w.m)
    ensures Merged(indexed, v) == Merged(indexed, w)
  {
    OperationSplits(v.service, v.m);
    OperationSplits(w.service, w.m);
  }

  datatype State = State(target: File, entries: seq<Entry>, seen: set<string>)

  ghost predicate Contributed(c: Config, indexed: map<string, ServiceRules>, done: set<Visit>, directory: string, e: Entry) {
    exists v :: v in done && Contributes(c, indexed, v, directory, e)
  }

  predicate DistinctOperations(entries: seq<Entry>) {
    forall j, k | 0 <= j < k < |entries| :: entries[j].operation != entries[k].operation
  }

  ghost predicate StateHolds(c: Config, indexed: map<string, ServiceRules>, state: State, directory: string, done: set<Visit>) {
    && DistinctOperations(state.entries) && state.entries != []
    && (forall op :: op in state.seen <==> exists e :: e in state.entries && e.operation == op)
    && (forall e :: e in state.entries <==> Contributed(c, indexed, done, directory, e))
  }

  ghost predicate StatesHold(c: Config, indexed: map<string, ServiceRules>, states: map<string, State>, done: set<Visit>) {
    && (forall d | d in states :: StateHolds(c, indexed, states[d], d, done))
    && (forall d, e | Contributed(c, indexed, done, d, e) :: d in states)
  }

  /** States change in the visited file's directory only, and keep their targets. */
  ghost predicate TargetsKept(states: map<string, State>, next: map<string, State>, directory: string, target: File) {
    && (forall d | d in states :: d in next)
    && forall d | d in next ::
         if d in states then next[d].target == states[d].target else d == directory && next[d].target == target
  }

  method AddMethod(c: Config, indexed: map<string, ServiceRules>, states: map<string, State>, target: File, v: Visit, ghost done: set<Visit>)
    returns (next: map<string, State>, ok: bool)
    requires StatesHold(c, indexed, states, done) && ProperNames(v.service, v.m)
    requires forall w | w in done :: ProperNames(w.service, w.m)
    ensures ok <==> !Refuses(c, indexed, v)
    ensures ok ==> StatesHold(c, indexed, next, done + {v}) && TargetsKept(states, next, v.file.directory, target)
  {
    next, ok := states, true;
    var merged := Merged(indexed, v);
    if merged.None? {
      NothingContributed(c, indexed, states, v, done);
      return;
    }
    var op := Operation(v.service, v.m);
    var verdict := c.accept(v.file, v.service, v.m, merged.value);
    if verdict.Refused? {
      return states, false;
    }
    if !verdict.Accepted? {
      NothingContributed(c, indexed, states, v, done);
      return;
    }
    var directory := v.file.directory;
    var state := if directory in states then states[directory] else State(target, [], {});
    if op in state.seen {
      SeenContributed(c, indexed, states, v, done);
      return;
    }
    var added := State(state.target, state.entries + [Entry(op, merged.value)], state.seen + {op});
    next := states[directory := added];
    NewContributed(c, indexed, states, state, v, done, merged.value);
  }

  lemma NothingContributed(c: Config, indexed: map<string, ServiceRules>, states: map<string, State>, v: Visit, done: set<Visit>)
    requires StatesHold(c, indexed, states, done)
    requires forall e :: !Contributes(c, indexed, v, v.file.directory, e)
    ensures StatesHold(c, indexed, states, done + {v})
  {
    forall d, e
      ensures Contributed(c, indexed, done + {v}, d, e) <==> Contributed(c, indexed, done, d, e)
    {
      if w :| w in done && Contributes(c, indexed, w, d, e) {
        assert w in done + {v};
      }
    }
  }

  /** A repeated operation contributes the entry that is there already. */
  lemma SeenContributed(c: Config, indexed: map<string, ServiceRules>, states: map<string, State>, v: Visit, done: set<Visit>)
    requires StatesHold(c, indexed, states, done) && ProperNames(v.service, v.m)
    requires forall w | w in done :: ProperNames(w.service, w.m)
    requires v.file.directory in states && Operation(v.service, v.m) in states[v.file.directory].seen
    ensures StatesHold(c, indexed, states, done + {v})
  {
    hide Operation, Merged;
    forall d, e
      ensures Contributed(c, indexed, done + {v}, d, e) <==> Contributed(c, indexed, done, d, e)
    {
      if w :| w in done && Contributes(c, indexed, w, d, e) {
        assert w in done + {v};
      }
      if Contributes(c, indexed, v, d, e) {
        assert StateHolds(c, indexed, states[d], d, done);
        var there :| there in states[d].entries && there.operation == e.operation;
        var w :| w in done && Contributes(c, indexed, w, d, there);
        OperationInjective(c, indexed, v, w);
        assert there == e;
      }
    }
  }

  lemma NewContributed(c: Config, indexed: map<string, ServiceRules>, states: map<string, State>, state: State, v: Visit, done: set<Visit>, rule: Rule)
    requires StatesHold(c, indexed, states, done)
    requires state == if v.file.directory in states then states[v.file.directory] else State(state.target, [], {})
    requires Operation(v.service, v.m) !in state.seen
    requires Contributes(c, indexed, v, v.file.directory, Entry(Operation(v.service, v.m), rule))
    ensures var op := Operation(v.service, v.m);
      StatesHold(c, indexed, states[v.file.directory := State(state.target, state.entries + [Entry(op, rule)], state.seen + {op})], done + {v})
  {
    hide Operation, Merged;
    var directory := v.file.directory;
    var entry := Entry(Operation(v.service, v.m), rule);
    var added := State(state.target, state.entries + [entry], state.seen + {entry.operation});
    forall d, e
      ensures Contributed(c, indexed, done + {v}, d, e) <==> Contributed(c, indexed, done, d, e) || (d == directory && e == entry)
    {
      if w :| w in done && Contributes(c, indexed, w, d, e) {
        assert w in done + {v};
      }
      assert v in done + {v};
    }
    forall e
      ensures e in added.entries <==> Contributed(c, indexed, done + {v}, directory, e)
    {
      assert e in state.entries <==> Contributed(c, indexed, done, directory, e);
    }
    forall op
      ensures op in added.seen <==> exists e :: e in added.entries && e.operation == op
    {
      if op == entry.operation {
        assert entry in added.entries;
      } else if e :| e in state.entries && e.operation == op {
        assert e in added.entries;
      }
    }
    forall j | 0 <= j < |state.entries|
      ensures state.entries[j].operation != entry.operation
    {
      assert state.entries[j] in state.entries;
    }
    assert StateHolds(c, indexed, added, directory, done + {v});
  }

  // Targets and conflicts.

  /** The first generated file of each directory. */
  function Targets(files: seq<File>): map<string, File> {
    if files == [] then map[]
    else
      var f := files[|files| - 1];
      var targets := Targets(files[..|files| - 1]);
      if f.generate && f.directory !in targets then targets[f.directory := f] else targets
  }

  predicate SamePackage(f: File, g: File) {
    f.importPath == g.importPath && f.packageName == g.packageName
  }

  ghost predicate Conflicting(files: seq<File>) {
    exists f, g :: f in files && g in files && f.generate && g.generate && f.directory == g.directory && !SamePackage(f, g)
  }

  lemma {:induction false} TargetsAre(files: seq<File>)
    ensures forall d | d in Targets(files) :: Targets(files)[d] in files && Targets(files)[d].generate && Targets(files)[d].directory == d
    ensures forall f | f in files && f.generate :: f.directory in Targets(files)
  {
    if files != [] {
      var n := |files| - 1;
      TargetsAre(files[..n]);
      assert files == files[..n] + [files[n]];
    }
  }

  // Sorting.

  /** The source's sort makes no promise about the order of equal keys, so none is made here. */
  method Sort<T(==)>(s: seq<T>, key: T -> string) returns (sorted: seq<T>)
    ensures multiset(sorted) == multiset(s)
    ensures forall j, k | 0 <= j < k < |sorted| :: !Less(key(sorted[k]), key(sorted[j]))
  {
    sorted := [];
    for i := 0 to |s|
      invariant multiset(sorted) == multiset(s[..i])
      invariant forall j, k | 0 <= j < k < |sorted| :: !Less(key(sorted[k]), key(sorted[j]))
    {
      var x := s[i];
      var p := |sorted|;
      while p > 0 && Less(key(x), key(sorted[p - 1]))
        invariant 0 <= p <= |sorted| && forall k | p <= k < |sorted| :: Less(key(x), key(sorted[k]))
      {
        p := p - 1;
      }
      var was := sorted;
      sorted := was[..p] + [x] + was[p..];
      assert was == was[..p] + was[p..] && s[..i + 1] == s[..i] + [x];
      InsertedInOrder(was, x, p, key);
    }
    assert s[..|s|] == s;
  }

  lemma InsertedInOrder<T>(was: seq<T>, x: T, p: nat, key: T -> string)
    requires p <= |was| && forall j, k | 0 <= j < k < |was| :: !Less(key(was[k]), key(was[j]))
    requires forall k | p <= k < |was| :: Less(key(x), key(was[k]))
    requires p > 0 ==> !Less(key(x), key(was[p - 1]))
    ensures var now := was[..p] + [x] + was[p..];
      forall j, k | 0 <= j < k < |now| :: !Less(key(now[k]), key(now[j]))
  {
    hide Less;
    forall k | p <= k < |was|
      ensures !Less(key(was[k]), key(x))
    {
      LessAsymmetric(key(x), key(was[k]));
    }
    forall j | 0 <= j < p
      ensures !Less(key(x), key(was[j]))
    {
      if Less(key(x), key(was[j])) {
        LessTotal(key(was[p - 1]), key(x));
        if j < p - 1 {
          LessTotal(key(was[j]), key(was[p - 1]));
          if Less(key(was[p - 1]), key(x)) {
            LessTransitive(key(was[p - 1]), key(x), key(was[j]));
          }
        }
      }
    }
  }

  lemma LessAsymmetric(a: string, b: string)
    ensures !(Less(a, b) && Less(b, a))
  {
    LessIrreflexive(a);
    if Less(a, b) && Less(b, a) {
      LessTransitive(a, b, a);
    }
  }

  // The plan.

  ghost predicate Planned(c: Config, files: seq<File>, directory: string, e: Entry) {
    exists v :: Visited(files, v) && Contributes(c, Index(Services(files)), v, directory, e)
  }

  predicate StrictEntries(entries: seq<Entry>) {
    forall j, k | 0 <= j < k < |entries| :: Less(entries[j].operation, entries[k].operation)
  }

  predicate StrictGroups(groups: seq<Group>) {
    forall j, k | 0 <= j < k < |groups| :: Less(groups[j].directory, groups[k].directory)
  }

  ghost predicate GroupHolds(c: Config, files: seq<File>, g: Group) {
    && g.directory in Targets(files) && g.target == Targets(files)[g.directory]
    && g.entries != [] && StrictEntries(g.entries)
    && forall e :: e in g.entries <==> Planned(c, files, g.directory, e)
  }

  /** Groups in strict order of directory, each the planned entries of its directory in strict order of operation. */
  ghost predicate IsPlan(c: Config, files: seq<File>, groups: seq<Group>) {
    && StrictGroups(groups)
    && (forall g | g in groups :: GroupHolds(c, files, g))
    && (forall d, e | Planned(c, files, d, e) :: exists g :: g in groups && g.directory == d)
  }

  datatype Failure = BadDeclaration | ConflictingPackages | MergedRefused

  datatype Result = Plan(groups: seq<Group>) | Failed(failure: Failure)

  ghost predicate SomeRefused(c: Config, files: seq<File>) {
    exists v :: Visited(files, v) && Refuses(c, Index(Services(files)), v)
  }

  /** What the loops over files have reached: every visit of the files so far is done. */
  ghost predicate PassHolds(c: Config, indexed: map<string, ServiceRules>, files: seq<File>, targets: map<string, File>, states: map<string, State>, done: set<Visit>) {
    && (forall v :: v in done <==> Visited(files, v))
    && targets == Targets(files) && !Conflicting(files)
    && StatesHold(c, indexed, states, done)
    && (forall d | d in states :: d in targets && states[d].target == targets[d])
    && (forall v | v in done :: !Refuses(c, indexed, v))
  }

  ghost predicate AllProper(files: seq<File>) {
    forall v | Visited(files, v) :: ProperNames(v.service, v.m)
  }

  /** The loops over the services and methods of one generated file. */
  method AddFile(c: Config, indexed: map<string, ServiceRules>, states: map<string, State>, target: File, f: File, ghost done: set<Visit>)
    returns (next: map<string, State>, ok: bool, ghost now: set<Visit>)
    requires StatesHold(c, indexed, states, done) && f.generate && AllProper([f])
    requires forall v | v in done :: ProperNames(v.service, v.m) && !Refuses(c, indexed, v)
    ensures !ok ==> exists v :: Visited([f], v) && Refuses(c, indexed, v)
    ensures ok ==> forall v :: v in now <==> v in done || Visited([f], v)
    ensures ok ==> StatesHold(c, indexed, next, now) && TargetsKept(states, next, f.directory, target)
    ensures ok ==> forall v | v in now :: !Refuses(c, indexed, v)
  {
    hide Refuses, StatesHold, ProperNames;
    next, ok, now := states, true, done;
    for j := 0 to |f.services|
      invariant StatesHold(c, indexed, next, now) && TargetsKept(states, next, f.directory, target)
      invariant forall v :: v in now <==> v in done || (v.file == f && v.service in f.services[..j] && v.m in v.service.methods)
      invariant forall v | v in now :: ProperNames(v.service, v.m) && !Refuses(c, indexed, v)
    {
      var service := f.services[j];
      ghost var start := now;
      for k := 0 to |service.methods|
        invariant StatesHold(c, indexed, next, now) && TargetsKept(states, next, f.directory, target)
        invariant forall v :: v in now <==> v in start || (v.file == f && v.service == service && v.m in service.methods[..k])
        invariant forall v | v in now :: ProperNames(v.service, v.m) && !Refuses(c, indexed, v)
      {
        var v := Visit(f, service, service.methods[k]);
        assert Visited([f], v);
        ghost var before := next;
        next, ok := AddMethod(c, indexed, next, target, v, now);
        if !ok {
          return;
        }
        now := now + {v};
        assert service.methods[..k + 1] == service.methods[..k] + [service.methods[k]];
      }
      assert service.methods[..|service.methods|] == service.methods;
      assert f.services[..j + 1] == f.services[..j] + [service];
    }
    assert f.services[..|f.services|] == f.services;
  }

  method GroupPass(c: Config, indexed: map<string, ServiceRules>, files: seq<File>)
    returns (targets: map<string, File>, states: map<string, State>, failure: Option<Failure>, ghost done: set<Visit>)
    requires AllProper(files)
    ensures failure.None? ==> PassHolds(c, indexed, files, targets, states, done)
    ensures failure.Some? ==>
      || (failure.value == ConflictingPackages && Conflicting(files))
      || (failure.value == MergedRefused && exists v :: Visited(files, v) && Refuses(c, indexed, v))
  {
    targets, states, failure, done := map[], map[], None, {};
    for i := 0 to |files|
      invariant PassHolds(c, indexed, files[..i], targets, states, done)
    {
      var file := files[i];
      assert files[..i + 1] == files[..i] + [file] && files[..i + 1][..i] == files[..i];
      if !file.generate {
        SkippedFile(c, indexed, files[..i], file, targets, states, done);
        continue;
      }
      TargetsAre(files[..i]);
      var directory := file.directory;
      if directory !in targets {
        targets := targets[directory := file];
      } else if !SamePackage(targets[directory], file) {
        ConflictFound(files, i, targets[directory]);
        failure := Some(ConflictingPackages);
        return;
      }
      NoConflict(files[..i], file);
      VisitedSome(files, i);
      ghost var start, before := done, states;
      var ok;
      states, ok, done := AddFile(c, indexed, states, targets[directory], file, done);
      if !ok {
        failure := Some(MergedRefused);
        return;
      }
      AddedFile(c, indexed, files[..i], file, targets, before, states, start, done);
    }
    assert files[..|files|] == files;
  }

  lemma SkippedFile(c: Config, indexed: map<string, ServiceRules>, files: seq<File>, f: File, targets: map<string, File>, states: map<string, State>, done: set<Visit>)
    requires PassHolds(c, indexed, files, targets, states, done) && !f.generate
    ensures PassHolds(c, indexed, files + [f], targets, states, done)
  {
    hide StatesHold, Refuses;
    assert (files + [f])[..|files|] == files;
  }

  lemma ConflictFound(files: seq<File>, i: nat, target: File)
    requires i < |files| && target in files[..i] && files[i].generate && target.generate
    requires target.directory == files[i].directory && !SamePackage(target, files[i])
    ensures Conflicting(files)
  {
    assert target in files && files[i] in files;
  }

  lemma NoConflict(files: seq<File>, f: File)
    requires !Conflicting(files) && f.generate
    requires f.directory in Targets(files) ==> SamePackage(Targets(files)[f.directory], f)
    ensures !Conflicting(files + [f])
    ensures Targets(files + [f]) == if f.directory in Targets(files) then Targets(files) else Targets(files)[f.directory := f]
  {
    TargetsAre(files);
    assert (files + [f])[..|files|] == files;
    forall g | g in files && g.generate && g.directory == f.directory
      ensures SamePackage(g, f)
    {
      assert SamePackage(Targets(files)[f.directory], g);
    }
  }

  lemma VisitedSome(files: seq<File>, i: nat)
    requires i < |files|
    ensures forall v | Visited([files[i]], v) || Visited(files[..i], v) :: Visited(files, v)
  {
  }

  lemma AddedFile(c: Config, indexed: map<string, ServiceRules>, files: seq<File>, f: File, targets: map<string, File>,
                  before: map<string, State>, states: map<string, State>, start: set<Visit>, done: set<Visit>)
    requires f.generate && targets == Targets(files + [f]) && !Conflicting(files + [f])
    requires forall v :: v in start <==> Visited(files, v)
    requires forall d | d in before :: d in targets && before[d].target == targets[d]
    requires forall v :: v in done <==> v in start || Visited([f], v)
    requires f.directory in targets && StatesHold(c, indexed, states, done) && TargetsKept(before, states, f.directory, targets[f.directory])
    requires forall v | v in done :: !Refuses(c, indexed, v)
    ensures PassHolds(c, indexed, files + [f], targets, states, done)
  {
    hide StatesHold, Refuses, Conflicting, Targets;
  }

  /** The keys of a map, in the order it happens to list them. */
  method ListKeys(states: map<string, State>) returns (keys: seq<string>)
    ensures forall d :: d in keys <==> d in states
    ensures forall j, k | 0 <= j < k < |keys| :: keys[j] != keys[k]
  {
    var rest := states.Keys;
    keys := [];
    while rest != {}
      invariant rest <= states.Keys && forall d :: d in keys <==> d in states && d !in rest
      invariant forall j, k | 0 <= j < k < |keys| :: keys[j] != keys[k]
      decreases rest
    {
      var d :| d in rest;
      keys, rest := keys + [d], rest - {d};
    }
  }

  method Build(c: Config, files: seq<File>) returns (result: Result)
    requires AllProper(files)
    ensures result.Failed? <==> FaultyDeclaration(c, files) || Conflicting(files) || SomeRefused(c, files)
    ensures result == Failed(BadDeclaration) <==> FaultyDeclaration(c, files)
    ensures result == Failed(ConflictingPackages) ==> Conflicting(files)
    ensures result == Failed(MergedRefused) ==> SomeRefused(c, files)
    ensures result.Plan? ==> IsPlan(c, files, result.groups)
  {
    var index := IndexPass(c, files);
    if index.None? {
      return Failed(BadDeclaration);
    }
    var targets, states, failure, done := GroupPass(c, index.value, files);
    if failure.Some? {
      return Failed(failure.value);
    }
    hide FaultyDeclaration, Conflicting, Refuses, StatesHold;
    var groups := Assemble(c, files, targets, states, done);
    result := Plan(groups);
  }

  /** The directories in order, each with its entries in order. */
  method Assemble(c: Config, files: seq<File>, ghost targets: map<string, File>, states: map<string, State>, ghost done: set<Visit>)
    returns (groups: seq<Group>)
    requires PassHolds(c, Index(Services(files)), files, targets, states, done)
    ensures IsPlan(c, files, groups)
  {
    hide PassHolds, GroupHolds, IsPlan, Index, Services, Less;
    var directories := ListKeys(states);
    var sorted := Sort(directories, (d: string) => d);
    SortedStrict(directories, sorted, (d: string) => d);
    groups := [];
    for i := 0 to |sorted|
      invariant |groups| == i && forall k | 0 <= k < i :: groups[k].directory == sorted[k]
      invariant forall k | 0 <= k < i :: GroupHolds(c, files, groups[k])
    {
      assert sorted[i] in sorted;
      var state := states[sorted[i]];
      var entries := Sort(state.entries, (e: Entry) => e.operation);
      groups := groups + [Group(sorted[i], state.target, entries)];
      GroupIsPlanned(c, files, targets, states, done, sorted[i], entries);
    }
    PlanComplete(c, files, targets, states, done, sorted, groups);
  }

  /** Sorting by a key that never repeats leaves a strict order and the same elements. */
  lemma SortedStrict<T>(s: seq<T>, sorted: seq<T>, key: T -> string)
    requires multiset(sorted) == multiset(s)
    requires forall j, k | 0 <= j < k < |s| :: key(s[j]) != key(s[k])
    requires forall j, k | 0 <= j < k < |sorted| :: !Less(key(sorted[k]), key(sorted[j]))
    ensures forall x :: x in sorted <==> x in s
    ensures forall j, k | 0 <= j < k < |sorted| :: Less(key(sorted[j]), key(sorted[k]))
  {
    SameMembers(s, sorted);
    forall j, k | 0 <= j < k < |sorted|
      ensures Less(key(sorted[j]), key(sorted[k]))
    {
      LessTotal(key(sorted[j]), key(sorted[k]));
      if key(sorted[j]) == key(sorted[k]) {
        TwiceInMultiset(sorted, j, k);
        KeyOnce(s, sorted[j], sorted[k], key);
      }
    }
  }

  lemma SameMembers<T>(s: seq<T>, t: seq<T>)
    requires multiset(s) == multiset(t)
    ensures forall x :: x in s <==> x in t
  {
    forall x
      ensures x in s <==> x in t
    {
      assert x in s <==> x in multiset(s);
      assert x in t <==> x in multiset(t);
    }
  }

  lemma TwiceInMultiset<T>(s: seq<T>, j: nat, k: nat)
    requires j < k < |s|
    ensures s[j] == s[k] ==> multiset(s)[s[j]] >= 2
  {
    assert s == s[..j] + [s[j]] + s[j + 1..k] + [s[k]] + s[k + 1..];
  }

  lemma KeyOnce<T>(s: seq<T>, x: T, y: T, key: T -> string)
    requires x in s && y in s && key(x) == key(y)
    requires forall j, k | 0 <= j < k < |s| :: key(s[j]) != key(s[k])
    ensures x == y && multiset(s)[x] == 1
  {
    var j :| 0 <= j < |s| && s[j] == x;
    var k :| 0 <= k < |s| && s[k] == y;
    assert j == k;
    CountSplit(s, j);
    NotBeside(s, j, key);
  }

  lemma NotBeside<T>(s: seq<T>, j: nat, key: T -> string)
    requires j < |s| && forall i, k | 0 <= i < k < |s| :: key(s[i]) != key(s[k])
    ensures s[j] !in s[..j] && s[j] !in s[j + 1..]
  {
  }

  lemma CountSplit<T>(s: seq<T>, j: nat)
    requires j < |s|
    ensures multiset(s)[s[j]] == multiset(s[..j])[s[j]] + 1 + multiset(s[j + 1..])[s[j]]
  {
    assert s == s[..j] + [s[j]] + s[j + 1..];
  }

  lemma GroupIsPlanned(c: Config, files: seq<File>, targets: map<string, File>, states: map<string, State>, done: set<Visit>, d: string, entries: seq<Entry>)
    requires PassHolds(c, Index(Services(files)), files, targets, states, done) && d in states
    requires multiset(entries) == multiset(states[d].entries)
    requires forall j, k | 0 <= j < k < |entries| :: !Less(entries[k].operation, entries[j].operation)
    ensures GroupHolds(c, files, Group(d, states[d].target, entries))
  {
    hide Conflicting, Refuses, Contributes, Index, Services, Targets, Less;
    assert StateHolds(c, Index(Services(files)), states[d], d, done);
    SortedStrict(states[d].entries, entries, (e: Entry) => e.operation);
    assert states[d].entries[0] in entries;
    forall e
      ensures e in entries <==> Planned(c, files, d, e)
    {
      assert e in entries <==> Contributed(c, Index(Services(files)), done, d, e);
    }
  }

  lemma PlanComplete(c: Config, files: seq<File>, targets: map<string, File>, states: map<string, State>, done: set<Visit>, sorted: seq<string>, groups: seq<Group>)
    requires PassHolds(c, Index(Services(files)), files, targets, states, done)
    requires forall d :: d in sorted <==> d in states
    requires forall j, k | 0 <= j < k < |sorted| :: Less(sorted[j], sorted[k])
    requires |groups| == |sorted| && forall k | 0 <= k < |groups| :: groups[k].directory == sorted[k] && GroupHolds(c, files, groups[k])
    ensures IsPlan(c, files, groups)
  {
    hide Conflicting, Refuses, Contributes, Index, Services, Targets, Less, GroupHolds;
    forall d, e | Planned(c, files, d, e)
      ensures exists g :: g in groups && g.directory == d
    {
      assert Contributed(c, Index(Services(files)), done, d, e);
      var k :| 0 <= k < |sorted| && sorted[k] == d;
      assert groups[k] in groups;
    }
  }
}
