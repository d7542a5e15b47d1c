/** What a rule plan does not depend on: the order of the files, and the order a map lists its keys in. */
module RuleOrder {
  import opened Options
  import opened Orders
  import opened RulePlan

  /** No two services share a full name. */
  predicate UniqueServices(files: seq<File>) {
    Unique(Services(files))
  }

  predicate Unique(services: seq<Service>) {
    forall s, t | s in services && t in services && s.fullName == t.fullName :: s == t
  }

  predicate UniqueMethods(methods: seq<Method>) {
    forall m, n | m in methods && n in methods && m.name == n.name :: m == n
  }

  lemma {:induction false} IndexDomain(services: seq<Service>, name: string)
    ensures name in Index(services) <==> exists s :: s in services && s.fullName == name
  {
    if services != [] {
      var n := |services| - 1;
      IndexDomain(services[..n], name);
      assert services == services[..n] + [services[n]];
    }
  }

  lemma {:induction false} IndexUnique(services: seq<Service>, s: Service)
    requires Unique(services) && s in services
    ensures s.fullName in Index(services) && Index(services)[s.fullName] == RulesOf(s)
  {
    var n := |services| - 1;
    assert services == services[..n] + [services[n]];
    if s != services[n] {
      IndexUnique(services[..n], s);
    }
  }

  lemma {:induction false} MethodRuleOwn(methods: seq<Method>, m: Method)
    requires UniqueMethods(methods) && m in methods
    ensures m.name in MethodRules(methods) <==> m.extension.Declared?
    ensures m.extension.Declared? ==> MethodRules(methods)[m.name] == m.extension.rule
  {
    var n := |methods| - 1;
    assert methods == methods[..n] + [methods[n]];
    if m in methods[..n] {
      MethodRuleOwn(methods[..n], m);
    } else {
      MethodRuleAbsent(methods[..n], m.name);
    }
  }

  lemma {:induction false} MethodRuleAbsent(methods: seq<Method>, name: string)
    requires forall m | m in methods :: m.name != name
    ensures name !in MethodRules(methods)
  {
    if methods != [] {
      var n := |methods| - 1;
      assert methods == methods[..n] + [methods[n]];
      MethodRuleAbsent(methods[..n], name);
    }
  }

  /** The rule of a method: its own declared rule, or else the declared default of its service, of those that have a mode. */
  function OwnRule(v: Visit): Option<Rule> {
    match v.m.extension
    case Declared(rule) => if rule.mode != 0 then Some(rule) else DefaultRule(v.service)
    case _ => DefaultRule(v.service)
  }

  function DefaultRule(s: Service): Option<Rule> {
    match s.extension
    case Declared(rule) => if rule.mode != 0 then Some(rule) else None
    case _ => None
  }

  /** With unique names, the planned rule of a method is its own rule. */
  lemma MergedOwn(files: seq<File>, v: Visit)
    requires UniqueServices(files) && Visited(files, v) && UniqueMethods(v.service.methods)
    ensures Merged(Index(Services(files)), v) == OwnRule(v)
  {
    ServicesIn(files, v.service);
    IndexUnique(Services(files), v.service);
    MethodRuleOwn(v.service.methods, v.m);
  }

  // What a plan holds, without the index.

  predicate UniqueNames(files: seq<File>) {
    UniqueServices(files) && forall f, s | f in files && s in f.services :: UniqueMethods(s.methods)
  }

  /** A method of a generated file in the directory whose own rule is accepted for the operation. */
  ghost predicate PlansOwn(c: Config, files: seq<File>, directory: string, e: Entry, f: File, s: Service, m: Method) {
    && f in files && f.generate && f.directory == directory && s in f.services && m in s.methods
    && OwnRule(Visit(f, s, m)) == Some(e.rule) && c.accept(f, s, m, e.rule) == Accepted
    && e.operation == "/" + s.fullName + "/" + m.name
  }

  /** With unique names the planned entries are the accepted own rules of the methods of generated files. */
  lemma PlannedExactlyWhen(c: Config, files: seq<File>, directory: string, e: Entry)
    requires UniqueNames(files)
    ensures Planned(c, files, directory, e) <==> exists f, s, m :: PlansOwn(c, files, directory, e, f, s, m)
  {
    hide Index, Merged, OwnRule, UniqueServices;
    if Planned(c, files, directory, e) {
      var v :| Visited(files, v) && Contributes(c, Index(Services(files)), v, directory, e);
      MergedOwn(files, v);
      assert PlansOwn(c, files, directory, e, v.file, v.service, v.m);
    }
    if f, s, m :| PlansOwn(c, files, directory, e, f, s, m) {
      MergedOwn(files, Visit(f, s, m));
      assert Visited(files, Visit(f, s, m)) && Contributes(c, Index(Services(files)), Visit(f, s, m), directory, e);
    }
  }

  /**
    In a plan, the operation of a generated method has an entry in its directory exactly when the method has a
    rule that is accepted, and the entry holds that rule. The service is declared in one file only.
   */
  lemma MethodPlanned(c: Config, files: seq<File>, groups: seq<Group>, v: Visit, rule: Rule)
    requires UniqueNames(files) && AllProper(files) && IsPlan(c, files, groups) && Visited(files, v)
    requires forall f | f in files && v.service in f.services :: f == v.file
    ensures (exists g | g in groups :: g.directory == v.file.directory && Entry("/" + v.service.fullName + "/" + v.m.name, rule) in g.entries)
      <==> OwnRule(v) == Some(rule) && c.accept(v.file, v.service, v.m, rule) == Accepted
  {
    hide Index, Merged, OwnRule, Less, Targets;
    var d, e := v.file.directory, Entry("/" + v.service.fullName + "/" + v.m.name, rule);
    PlannedExactlyWhen(c, files, d, e);
    if f, s, m :| PlansOwn(c, files, d, e, f, s, m) {
      assert Visited(files, Visit(f, s, m));
      OperationNames(v.service, v.m, s, m);
      SameDeclared(files, v, Visit(f, s, m));
    }
    if OwnRule(v) == Some(rule) && c.accept(v.file, v.service, v.m, rule) == Accepted {
      assert PlansOwn(c, files, d, e, v.file, v.service, v.m);
    }
    hide PlansOwn, AllProper, UniqueNames;
    if g :| g in groups && g.directory == d && e in g.entries {
      assert GroupHolds(c, files, g);
    }
    if Planned(c, files, d, e) {
      var g :| g in groups && g.directory == d;
      assert GroupHolds(c, files, g);
    }
  }

  lemma OperationNames(s: Service, m: Method, t: Service, n: Method)
    requires ProperNames(s, m) && ProperNames(t, n) && Operation(s, m) == Operation(t, n)
    ensures s.fullName == t.fullName && m.name == n.name
  {
    OperationSplits(s, m);
    OperationSplits(t, n);
  }

  lemma SameDeclared(files: seq<File>, v: Visit, w: Visit)
    requires UniqueNames(files) && Visited(files, v) && Visited(files, w)
    requires v.service.fullName == w.service.fullName && v.m.name == w.m.name
    ensures v.service == w.service && v.m == w.m
  {
    ServicesIn(files, v.service);
    ServicesIn(files, w.service);
  }

  /** Planning fails for a declaration that is malformed or invalid, in any file, generated or not. */
  lemma FaultyExactlyWhen(c: Config, files: seq<File>)
    ensures FaultyDeclaration(c, files) <==> exists f, s | f in files && s in f.services :: DeclaresBadly(c, s)
  {
    forall s
      ensures s in Services(files) <==> exists f :: f in files && s in f.services
      ensures FaultyService(c, s) <==> DeclaresBadly(c, s)
    {
      ServicesIn(files, s);
    }
    hide FaultyService, DeclaresBadly, Services;
  }

  ghost predicate DeclaresBadly(c: Config, s: Service) {
    || s.extension == Malformed || (s.extension.Declared? && !c.validate(s, None, s.extension.rule))
    || exists m | m in s.methods :: m.extension == Malformed || (m.extension.Declared? && !c.validate(s, Some(m), m.extension.rule))
  }

  /** And with unique names, for an own rule that is refused. */
  lemma RefusedExactlyWhen(c: Config, files: seq<File>)
    requires UniqueNames(files)
    ensures SomeRefused(c, files) <==> exists v ::
      Visited(files, v) && OwnRule(v).Some? && c.accept(v.file, v.service, v.m, OwnRule(v).value) == Refused
  {
    hide Index, Merged, OwnRule, UniqueServices;
    forall v | Visited(files, v)
      ensures Refuses(c, Index(Services(files)), v) <==> OwnRule(v).Some? && c.accept(v.file, v.service, v.m, OwnRule(v).value) == Refused
    {
      MergedOwn(files, v);
    }
    hide Refuses;
    if v :| Visited(files, v) && OwnRule(v).Some? && c.accept(v.file, v.service, v.m, OwnRule(v).value) == Refused {
      assert Refuses(c, Index(Services(files)), v);
    }
  }

  /** The target of a directory is the first generated file in it. */
  lemma {:induction false} TargetIsFirst(files: seq<File>, d: string)
    ensures d in Targets(files) <==> exists f :: f in files && f.generate && f.directory == d
    ensures d in Targets(files) ==> exists k: nat | k < |files| ::
      && files[k] == Targets(files)[d] && files[k].generate && files[k].directory == d
      && forall j | 0 <= j < k :: !(files[j].generate && files[j].directory == d)
  {
    if files != [] {
      var n := |files| - 1;
      TargetIsFirst(files[..n], d);
      assert files == files[..n] + [files[n]];
      if d in Targets(files[..n]) {
        var k: nat :| k < n && files[..n][k] == Targets(files[..n])[d] && files[..n][k].generate && files[..n][k].directory == d
          && forall j | 0 <= j < k :: !(files[..n][j].generate && files[..n][j].directory == d);
        assert forall j | 0 <= j < n :: files[..n][j] == files[j];
      } else if files[n].generate && files[n].directory == d {
        assert forall j | 0 <= j < n :: files[j] in files[..n];
      }
    }
  }

  ghost predicate SameFiles(files: seq<File>, other: seq<File>) {
    forall f :: f in files <==> f in other
  }

  lemma SameIndex(files: seq<File>, other: seq<File>)
    requires SameFiles(files, other) && UniqueServices(files)
    ensures UniqueServices(other) && Index(Services(files)) == Index(Services(other))
    ensures forall s :: s in Services(files) <==> s in Services(other)
  {
    var a, b := Services(files), Services(other);
    forall s
      ensures s in a <==> s in b
    {
      ServicesIn(files, s);
      ServicesIn(other, s);
    }
    forall name
      ensures name in Index(a) <==> name in Index(b)
      ensures name in Index(a) ==> Index(a)[name] == Index(b)[name]
    {
      IndexDomain(a, name);
      IndexDomain(b, name);
      if name in Index(a) {
        var s :| s in a && s.fullName == name;
        IndexUnique(a, s);
        IndexUnique(b, s);
      }
    }
  }

  ghost predicate Fails(c: Config, files: seq<File>) {
    FaultyDeclaration(c, files) || Conflicting(files) || SomeRefused(c, files)
  }

  /** With unique service names, the order of the files decides neither success nor what is planned. */
  lemma OrderIrrelevant(c: Config, files: seq<File>, other: seq<File>)
    requires SameFiles(files, other) && UniqueServices(files)
    ensures Fails(c, files) <==> Fails(c, other)
    ensures forall d, e :: Planned(c, files, d, e) <==> Planned(c, other, d, e)
  {
    SameIndex(files, other);
    hide Index, Services, Merged, Contributes, Refuses, SamePackage;
    forall v
      ensures Visited(files, v) <==> Visited(other, v)
    {
    }
  }

  lemma {:induction false} StrictUnique<T>(a: seq<T>, b: seq<T>, key: T -> string)
    requires forall j, k | 0 <= j < k < |a| :: Less(key(a[j]), key(a[k]))
    requires forall j, k | 0 <= j < k < |b| :: Less(key(b[j]), key(b[k]))
    requires forall x :: x in a <==> x in b
    ensures a == b
  {
    if a == [] || b == [] {
      Emptiness(a, b);
      Emptiness(b, a);
    } else {
      var m, n := |a| - 1, |b| - 1;
      assert a == a[..m] + [a[m]] && b == b[..n] + [b[n]];
      LastAgrees(a[..m], a[m], b[..n], b[n], key);
      StrictUnique(a[..m], b[..n], key);
    }
  }

  lemma Emptiness<T>(a: seq<T>, b: seq<T>)
    requires forall x :: x in a ==> x in b
    ensures b == [] ==> a == []
  {
    if a != [] {
      assert a[0] in a;
    }
  }

  /** Two strictly ordered sequences of the same elements end alike, and have the same elements before the end. */
  lemma LastAgrees<T>(a: seq<T>, x: T, b: seq<T>, y: T, key: T -> string)
    requires forall j, k | 0 <= j < k < |a + [x]| :: Less(key((a + [x])[j]), key((a + [x])[k]))
    requires forall j, k | 0 <= j < k < |b + [y]| :: Less(key((b + [y])[j]), key((b + [y])[k]))
    requires forall z :: z in a + [x] <==> z in b + [y]
    ensures x == y
    ensures forall z :: z in a <==> z in b
  {
    hide Less;
    BeforeLast(a, x, key);
    BeforeLast(b, y, key);
    LessAsymmetric(key(x), key(y));
    assert x in a + [x] && y in b + [y];
    forall z
      ensures z in a <==> z in b
    {
      assert z in a + [x] <==> z in b + [y];
    }
  }

  lemma BeforeLast<T>(a: seq<T>, x: T, key: T -> string)
    requires forall j, k | 0 <= j < k < |a + [x]| :: Less(key((a + [x])[j]), key((a + [x])[k]))
    ensures forall z | z in a :: Less(key(z), key(x)) && z != x
  {
    forall z | z in a
      ensures Less(key(z), key(x)) && z != x
    {
      var j :| 0 <= j < |a| && a[j] == z;
      assert (a + [x])[j] == z && (a + [x])[|a|] == x;
      LessIrreflexive(key(x));
    }
  }

  /** Two plans for the same files in any order have the same directories, the same entries, and targets of one package. */
  lemma PlanUnique(c: Config, files: seq<File>, other: seq<File>, groups: seq<Group>, others: seq<Group>)
    requires SameFiles(files, other) && UniqueServices(files) && !Conflicting(files)
    requires IsPlan(c, files, groups) && IsPlan(c, other, others)
    ensures |groups| == |others|
    ensures forall k | 0 <= k < |groups| ::
      && groups[k].directory == others[k].directory && groups[k].entries == others[k].entries
      && SamePackage(groups[k].target, others[k].target)
  {
    OrderIrrelevant(c, files, other);
    var a, b := Directories(groups), Directories(others);
    forall d
      ensures d in a <==> d in b
    {
      DirectoryPlanned(c, files, groups, d);
      DirectoryPlanned(c, other, others, d);
    }
    StrictUnique(a, b, (d: string) => d);
    forall k | 0 <= k < |groups|
      ensures groups[k].directory == others[k].directory && groups[k].entries == others[k].entries
      ensures SamePackage(groups[k].target, others[k].target)
    {
      assert a[k] == b[k];
      assert groups[k] in groups && others[k] in others;
      EntriesAgree(c, files, other, groups[k], others[k]);
    }
  }

  function Directories(groups: seq<Group>): seq<string> {
    seq(|groups|, k requires 0 <= k < |groups| => groups[k].directory)
  }

  lemma DirectoryPlanned(c: Config, files: seq<File>, groups: seq<Group>, d: string)
    requires IsPlan(c, files, groups)
    ensures d in Directories(groups) <==> exists e :: Planned(c, files, d, e)
  {
    if d in Directories(groups) {
      var k :| 0 <= k < |groups| && groups[k].directory == d;
      assert groups[k] in groups && groups[k].entries[0] in groups[k].entries;
    }
    if e :| Planned(c, files, d, e) {
      var g :| g in groups && g.directory == d;
      var k :| 0 <= k < |groups| && groups[k] == g;
      assert Directories(groups)[k] == d;
    }
  }

  lemma EntriesAgree(c: Config, files: seq<File>, other: seq<File>, g: Group, h: Group)
    requires SameFiles(files, other) && !Conflicting(files) && g.directory == h.directory
    requires forall d, e :: Planned(c, files, d, e) <==> Planned(c, other, d, e)
    requires GroupHolds(c, files, g) && GroupHolds(c, other, h)
    ensures g.entries == h.entries && SamePackage(g.target, h.target)
  {
    hide Planned, Less;
    StrictUnique(g.entries, h.entries, (e: Entry) => e.operation);
    TargetsAre(files);
    TargetsAre(other);
  }

  /**
    Without unique names the order decides: of two services of one name, the later gives the rule. The
    protobuf compiler itself refuses two declarations of one full name, so this says what the planner
    relies on, not what it meets.
   */
  lemma OrderMattersForRepeatedNames(c: Config)
    requires forall f, s, m, r :: c.accept(f, s, m, r) == Accepted
    ensures exists f: File, g: File, e: Entry :: Planned(c, [f, g], f.directory, e) && !Planned(c, [g, f], f.directory, e)
  {
    var r, q := Rule(1, "one"), Rule(1, "two");
    var s := Service("S", Extension.Declared(r), [Method("M", Absent)]);
    var t := Service("S", Extension.Declared(q), [Method("M", Absent)]);
    var f, g := File("f", true, "d", "i", "p", [s]), File("g", true, "d", "i", "p", [t]);
    LaterWins(f, s, g, t);
    LaterWins(g, t, f, s);
    assert MethodRules([Method("M", Absent)]) == map[] by {
      assert [Method("M", Absent)][..0] == [];
    }
    var v := Visit(g, t, Method("M", Absent));
    var e := Entry(Operation(t, v.m), q);
    assert Merged(Index(Services([f, g])), v) == Some(q);
    assert Visited([f, g], v) && Contributes(c, Index(Services([f, g])), v, "d", e);
    assert !Planned(c, [g, f], "d", e);
  }

  lemma LaterWins(f: File, s: Service, g: File, t: Service)
    requires f.services == [s] && g.services == [t] && s.fullName == t.fullName
    ensures Index(Services([f, g])) == map[t.fullName := RulesOf(t)]
  {
    assert [f, g][..1] == [f] && [f][..0] == [];
    assert Services([f]) == [s];
    assert Services([f, g]) == [s, t];
    assert [s, t][..1] == [s] && [s][..0] == [];
    assert Index([s]) == map[s.fullName := RulesOf(s)];
    assert Index([s, t]) == Index([s])[t.fullName := RulesOf(t)];
  }
}
