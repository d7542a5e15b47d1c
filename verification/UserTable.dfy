/**
  The example service's user table: rows carry an etag and a tombstone, and every write is
  conditional. Etags are drawn once and never repeat; a client writes with an etag it has drawn.
*/
module UserTable {
  type Name = string
  type Client = nat
  type Etag = nat

  datatype Row = Row(etag: Etag, deleted: bool, content: string)

  /** pool holds the etags drawn and not yet written, with the client that drew each. */
  datatype State = State(table: map<Name, Row>, next: Etag, pool: map<Etag, Client>)

  datatype Event =
    | Draw(client: Client)
    | Create(client: Client, name: Name, etag: Etag, content: string)
    | Update(client: Client, name: Name, expected: Etag, etag: Etag, content: string)
    | Delete(client: Client, name: Name, expected: Etag)
    | Undelete(client: Client, name: Name, etag: Etag)

  predicate Holds(st: State, client: Client, etag: Etag) {
    etag in st.pool && st.pool[etag] == client
  }

  predicate ActiveWith(st: State, name: Name, etag: Etag) {
    name in st.table && !st.table[name].deleted && st.table[name].etag == etag
  }

  predicate Deleted(st: State, name: Name) {
    name in st.table && st.table[name].deleted
  }

  predicate Active(st: State, name: Name) {
    name in st.table && !st.table[name].deleted
  }

  /** Whether the statement of an event matches a row, or for a creation, meets no unique key. */
  predicate Lands(st: State, ev: Event) {
    match ev
    case Draw(_) => true
    case Create(client, name, etag, _) => Holds(st, client, etag) && name !in st.table
    case Update(client, name, expected, etag, _) => Holds(st, client, etag) && ActiveWith(st, name, expected)
    case Delete(_, name, expected) => ActiveWith(st, name, expected)
    case Undelete(client, name, etag) => Holds(st, client, etag) && Deleted(st, name)
  }

  function Apply(st: State, ev: Event): State {
    if !Lands(st, ev) then st else
    match ev
    case Draw(client) => st.(next := st.next + 1, pool := st.pool[st.next := client])
    case Create(_, name, etag, content) => st.(table := st.table[name := Row(etag, false, content)], pool := st.pool - {etag})
    case Update(_, name, _, etag, content) => st.(table := st.table[name := Row(etag, false, content)], pool := st.pool - {etag})
    case Delete(_, name, _) => st.(table := st.table[name := st.table[name].(deleted := true)])
    case Undelete(_, name, etag) =>
      st.(table := st.table[name := st.table[name].(deleted := false, etag := etag)], pool := st.pool - {etag})
  }

  predicate Writes(ev: Event, name: Name) {
    !ev.Draw? && ev.name == name
  }

  function Run(st: State, evs: seq<Event>): State {
    if evs == [] then st else Apply(Run(st, evs[..|evs| - 1]), evs[|evs| - 1])
  }

  lemma {:induction false} RunAppend(st: State, a: seq<Event>, b: seq<Event>)
    ensures Run(st, a + b) == Run(Run(st, a), b)
  {
    if b == [] {
      assert a + b == a;
    } else {
      assert (a + b)[..|a + b| - 1] == a + b[..|b| - 1];
      RunAppend(st, a, b[..|b| - 1]);
    }
  }

  /** Etags in the table are spent, and etags in the pool are not in the table. */
  ghost predicate Sound(st: State) {
    && (forall n | n in st.table :: st.table[n].etag < st.next && st.table[n].etag !in st.pool)
    && (forall e | e in st.pool :: e < st.next)
  }

  lemma ApplyKeepsSound(st: State, ev: Event)
    requires Sound(st)
    ensures Sound(Apply(st, ev))
  {
  }

  lemma {:induction false} RunKeepsSound(st: State, evs: seq<Event>)
    requires Sound(st)
    ensures Sound(Run(st, evs))
  {
    hide Apply, Sound;
    if evs != [] {
      RunKeepsSound(st, evs[..|evs| - 1]);
      ApplyKeepsSound(Run(st, evs[..|evs| - 1]), evs[|evs| - 1]);
    }
  }

  /** Etag e will never again mark an active row under this name. */
  ghost predicate Spent(st: State, name: Name, e: Etag) {
    e < st.next && e !in st.pool && !ActiveWith(st, name, e)
  }

  lemma {:induction false} SpentForever(st: State, evs: seq<Event>, name: Name, e: Etag)
    requires Spent(st, name, e)
    ensures Spent(Run(st, evs), name, e)
  {
    if evs != [] {
      SpentForever(st, evs[..|evs| - 1], name, e);
    }
  }

  /** A write that lands on an active row ends its etag for good, a deletion included. */
  lemma LandingSpends(st: State, ev: Event, name: Name, e: Etag)
    requires Sound(st) && ActiveWith(st, name, e) && Writes(ev, name) && Lands(st, ev)
    ensures Spent(Apply(st, ev), name, e)
  {
  }

  /**
    In any run, the states in which a row is active with one etag form one interval, and no write
    to the row lands inside it: the row is the same throughout, delete and undelete included.
   */
  lemma EtagInterval(st: State, evs: seq<Event>, name: Name, e: Etag, i: nat, k: nat)
    requires Sound(st) && i <= k <= |evs|
    requires ActiveWith(Run(st, evs[..i]), name, e) && ActiveWith(Run(st, evs[..k]), name, e)
    ensures forall j | i <= j <= k :: SameRow(Run(st, evs[..i]), Run(st, evs[..j]), name)
    ensures forall j | i <= j < k :: !(Writes(evs[j], name) && Lands(Run(st, evs[..j]), evs[j]))
  {
    IntervalUpTo(st, evs, name, e, i, k, k);
  }

  lemma {:induction false} IntervalUpTo(st: State, evs: seq<Event>, name: Name, e: Etag, i: nat, j: nat, k: nat)
    requires Sound(st) && i <= j <= k <= |evs|
    requires ActiveWith(Run(st, evs[..i]), name, e) && ActiveWith(Run(st, evs[..k]), name, e)
    ensures forall m | i <= m <= j :: SameRow(Run(st, evs[..i]), Run(st, evs[..m]), name)
    ensures forall m | i <= m < j :: !(Writes(evs[m], name) && Lands(Run(st, evs[..m]), evs[m]))
    decreases j - i
  {
    hide Apply, Lands, Sound;
    if j > i {
      IntervalUpTo(st, evs, name, e, i, j - 1, k);
      var before := Run(st, evs[..j - 1]);
      RunKeepsSound(st, evs[..j - 1]);
      assert evs[..j][..j - 1] == evs[..j - 1] && evs[..j][j - 1] == evs[j - 1];
      assert Run(st, evs[..j]) == Apply(before, evs[j - 1]);
      if Writes(evs[j - 1], name) && Lands(before, evs[j - 1]) {
        assert evs[..j] + evs[j..k] == evs[..k];
        RunAppend(st, evs[..j], evs[j..k]);
        LandingSpends(before, evs[j - 1], name, e);
        SpentForever(Run(st, evs[..j]), evs[j..k], name, e);
        assert false;
      } else {
        NotWritten(before, evs[j - 1], name);
      }
    }
  }

  lemma NotWritten(st: State, ev: Event, name: Name)
    requires name in st.table && !(Writes(ev, name) && Lands(st, ev))
    ensures SameRow(st, Apply(st, ev), name)
  {
  }

  ghost predicate SameRow(st: State, st': State, name: Name) {
    name in st.table && name in st'.table && st'.table[name] == st.table[name]
  }

  /** Another client's write to the row landed between positions r and w of the trace. */
  ghost predicate OthersWrote(origin: State, trace: seq<Event>, name: Name, me: Client, r: nat, w: nat) {
    exists k :: r <= k < w <= |trace| && Writes(trace[k], name) && trace[k].client != me && Lands(Run(origin, trace[..k]), trace[k])
  }

  /** A row that loses its etag while this client writes nothing was written by another. */
  lemma {:induction false} LostToOthers(origin: State, trace: seq<Event>, name: Name, me: Client, r: nat, w: nat, e: Etag)
    requires r <= w <= |trace| && ActiveWith(Run(origin, trace[..r]), name, e) && !ActiveWith(Run(origin, trace[..w]), name, e)
    requires forall k | r <= k < w && Writes(trace[k], name) :: trace[k].client != me
    ensures OthersWrote(origin, trace, name, me, r, w)
    decreases w
  {
    var before := Run(origin, trace[..w - 1]);
    assert trace[..w][..w - 1] == trace[..w - 1] && trace[..w][w - 1] == trace[w - 1];
    if ActiveWith(before, name, e) {
      KeepsActive(before, trace[w - 1], name, e);
    } else {
      LostToOthers(origin, trace, name, me, r, w - 1, e);
    }
  }

  lemma KeepsActive(st: State, ev: Event, name: Name, e: Etag)
    requires ActiveWith(st, name, e) && !ActiveWith(Apply(st, ev), name, e)
    ensures Writes(ev, name) && Lands(st, ev)
  {
  }

  // What becomes of a row.

  /** Every way in which an event can change the row of a name, and what the row then is. */
  lemma RowMoves(st: State, ev: Event, name: Name)
    ensures var next := Apply(st, ev).table;
      if !Writes(ev, name) || !Lands(st, ev) then
        && (name in next <==> name in st.table) && (name in next ==> next[name] == st.table[name])
      else
        && name in next
        && match ev
           case Draw(_) => false
           case Create(_, _, etag, content) => name !in st.table && next[name] == Row(etag, false, content)
           case Update(_, _, expected, etag, content) =>
             ActiveWith(st, name, expected) && next[name] == Row(etag, false, content)
           case Delete(_, _, expected) =>
             ActiveWith(st, name, expected) && next[name] == Row(expected, true, st.table[name].content)
           case Undelete(_, _, etag) =>
             name in st.table && st.table[name].deleted && next[name] == Row(etag, false, st.table[name].content)
  {
  }

  predicate Replaces(st: State, ev: Event, name: Name) {
    ev.Update? && ev.name == name && Lands(st, ev)
  }

  /** The content that the last landed update of the row gave it, or the one it had. */
  function LastContent(st: State, evs: seq<Event>, name: Name): string
    requires name in st.table
  {
    if evs == [] then st.table[name].content
    else
      var n := |evs| - 1;
      if Replaces(Run(st, evs[..n]), evs[n], name) then evs[n].content else LastContent(st, evs[..n], name)
  }

  /** Over any run a row has the content of the last update of it that landed; deletions and restores leave it. */
  lemma {:induction false} ContentOfLastUpdate(st: State, evs: seq<Event>, name: Name)
    requires name in st.table
    ensures name in Run(st, evs).table && Run(st, evs).table[name].content == LastContent(st, evs, name)
  {
    if evs != [] {
      var n := |evs| - 1;
      ContentOfLastUpdate(st, evs[..n], name);
      RowMoves(Run(st, evs[..n]), evs[n], name);
      hide Apply, Lands;
    }
  }

  /** Two states of a run differ in a row's content only if an update of it landed in between. */
  lemma {:induction false} ContentKept(st: State, evs: seq<Event>, name: Name, i: nat, k: nat)
    requires i <= k <= |evs| && name in Run(st, evs[..i]).table
    requires forall j | i <= j < k :: !Replaces(Run(st, evs[..j]), evs[j], name)
    ensures name in Run(st, evs[..k]).table && Run(st, evs[..k]).table[name].content == Run(st, evs[..i]).table[name].content
    decreases k
  {
    if i < k {
      ContentKept(st, evs, name, i, k - 1);
      RowMoves(Run(st, evs[..k - 1]), evs[k - 1], name);
      assert evs[..k][..k - 1] == evs[..k - 1] && evs[..k][k - 1] == evs[k - 1];
      hide Apply, Lands;
    }
  }

  // Counting deletions.

  function DeletesByOthers(st: State, evs: seq<Event>, name: Name, me: Client): nat {
    if evs == [] then 0 else
    var n := |evs| - 1;
    DeletesByOthers(st, evs[..n], name, me)
      + if evs[n].Delete? && evs[n].name == name && evs[n].client != me && Lands(Run(st, evs[..n]), evs[n]) then 1 else 0
  }

  lemma {:induction false} DeletesAppend(st: State, a: seq<Event>, b: seq<Event>, name: Name, me: Client)
    ensures DeletesByOthers(st, a + b, name, me) == DeletesByOthers(st, a, name, me) + DeletesByOthers(Run(st, a), b, name, me)
  {
    if b == [] {
      assert a + b == a;
    } else {
      var n := |b| - 1;
      assert (a + b)[..|a + b| - 1] == a + b[..n];
      DeletesAppend(st, a, b[..n], name, me);
      RunAppend(st, a, b[..n]);
    }
  }

  /** A row that others leave deleted, having been active, was deleted by one of them. */
  lemma {:induction false} DeletionNeedsDelete(st: State, evs: seq<Event>, name: Name, me: Client)
    requires forall k | 0 <= k < |evs| :: evs[k].client != me
    requires Active(st, name) && Deleted(Run(st, evs), name)
    ensures DeletesByOthers(st, evs, name, me) >= 1
  {
    if evs != [] && Deleted(Run(st, evs[..|evs| - 1]), name) {
      DeletionNeedsDelete(st, evs[..|evs| - 1], name, me);
    } else {
      RowsStay(st, evs, name);
      if evs != [] {
        RowsStay(st, evs[..|evs| - 1], name);
      }
    }
  }

  /** Soft deletion: no row disappears. */
  lemma {:induction false} RowsStay(st: State, evs: seq<Event>, name: Name)
    requires name in st.table
    ensures name in Run(st, evs).table
  {
    if evs != [] {
      RowsStay(st, evs[..|evs| - 1], name);
    }
  }
}
