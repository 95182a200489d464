/** The queues, stacks, lists and multisets of one transaction, and their event log (modules/txlib/src). */
module TxLib {
  import opened Common

  // ---------------------------------------------------------------------------------------------
  // Queues and stacks: a shared sequence and a local one, in which pushed entries stay until a commit replays the
  // push events; a stack's top is the last element
  // ---------------------------------------------------------------------------------------------

  datatype Split<E> = Split(shared: seq<E>, local: seq<E>)

  /** txqueue_tx_apply_push and txstack_tx_apply_push: the entry moves if it is the next local one to move. */
  function ApplyPush<E(==)>(q: Split<E>, e: E): Split<E> {
    if q.local != [] && q.local[0] == e then Split(q.shared + [e], q.local[1..]) else q
  }

  /** Unlinks an entry from the sequence that it is in. */
  function Erased<E(==)>(s: seq<E>, e: E): seq<E> {
    if s == [] then [] else if s[0] == e then s[1..] else [s[0]] + Erased(s[1..], e)
  }

  function Push<E>(q: Split<E>, e: E): Split<E> {
    q.(local := q.local + [e])
  }

  function UndoPush<E(==)>(q: Split<E>, e: E): Split<E> {
    q.(local := Erased(q.local, e))
  }

  predicate HasEntries<E>(q: Split<E>) {
    q.shared != [] || q.local != []
  }

  /** Shared entries leave a queue before local ones. */
  predicate QueuePopsLocal<E>(q: Split<E>) {
    |q.shared| == 0
  }

  function QueueFront<E>(q: Split<E>): E
    requires HasEntries(q)
  {
    if QueuePopsLocal(q) then q.local[0] else q.shared[0]
  }

  function QueuePop<E>(q: Split<E>): Split<E>
    requires HasEntries(q)
  {
    if QueuePopsLocal(q) then q.(local := q.local[1..]) else q.(shared := q.shared[1..])
  }

  function UndoQueuePop<E>(q: Split<E>, e: E, useLocal: bool): Split<E> {
    if useLocal then q.(local := [e] + q.local) else q.(shared := [e] + q.shared)
  }

  /** Local entries leave a stack before shared ones. */
  predicate StackPopsLocal<E>(q: Split<E>) {
    |q.local| != 0
  }

  function StackTop<E>(q: Split<E>): E
    requires HasEntries(q)
  {
    if StackPopsLocal(q) then q.local[|q.local| - 1] else q.shared[|q.shared| - 1]
  }

  function StackPop<E>(q: Split<E>): Split<E>
    requires HasEntries(q)
  {
    if StackPopsLocal(q) then q.(local := q.local[..|q.local| - 1]) else q.(shared := q.shared[..|q.shared| - 1])
  }

  function UndoStackPop<E>(q: Split<E>, e: E, useLocal: bool): Split<E> {
    if useLocal then q.(local := q.local + [e]) else q.(shared := q.shared + [e])
  }

  // ---------------------------------------------------------------------------------------------
  // Lists, changed in place
  // ---------------------------------------------------------------------------------------------

  /** The head entry, which stands for the end of a list. */
  const END: nat := 0

  function IndexOf<E(==)>(s: seq<E>, e: E): (i: nat)
    ensures i <= |s| && (e in s ==> i < |s| && s[i] == e) && (e !in s ==> i == |s|)
    ensures forall k :: 0 <= k < i ==> s[k] != e
  {
    if s == [] then 0 else if s[0] == e then 0 else 1 + IndexOf(s[1..], e)
  }

  /** Links an entry before another one, or at the end. */
  function InsertedBefore<E(==)>(s: seq<E>, e: E, position: E): seq<E> {
    s[..IndexOf(s, position)] + [e] + s[IndexOf(s, position)..]
  }

  /** The entry behind another one, or the end. */
  function NextOf<E(==)>(s: seq<E>, e: E, end: E): E {
    if IndexOf(s, e) + 1 < |s| then s[IndexOf(s, e) + 1] else end
  }

  lemma {:induction false} ErasedAt<E>(s: seq<E>, e: E)
    requires e in s
    ensures Erased(s, e) == s[..IndexOf(s, e)] + s[IndexOf(s, e) + 1..]
  {
    if s[0] != e {
      ErasedAt(s[1..], e);
      var i := IndexOf(s[1..], e);
      assert s[..i + 1] == [s[0]] + s[1..][..i];
      assert s[i + 2..] == s[1..][i + 1..];
    }
  }

  lemma IndexIs<E>(s: seq<E>, e: E, i: nat)
    requires i < |s| && s[i] == e && forall k :: 0 <= k < i ==> s[k] != e
    ensures IndexOf(s, e) == i
  {
  }

  /** Erasing an entry undoes its insertion. */
  lemma EraseUndoesInsert<E>(s: seq<E>, e: E, position: E)
    requires e !in s
    ensures Erased(InsertedBefore(s, e, position), e) == s
  {
    var i, longer := IndexOf(s, position), InsertedBefore(s, e, position);
    assert longer[i] == e;
    IndexIs(longer, e, i);
    ErasedAt(longer, e);
  }

  lemma NextKeepsIndex<E>(s: seq<E>, e: E, end: E)
    requires e in s && Distinct(s) && end !in s
    ensures IndexOf(Erased(s, e), NextOf(s, e, end)) == IndexOf(s, e)
  {
    var i, next := IndexOf(s, e), NextOf(s, e, end);
    ErasedAt(s, e);
    if i + 1 < |s| {
      IndexIs(Erased(s, e), next, i);
    }
  }

  /** Inserting an entry before the one that followed it undoes its removal. */
  lemma InsertUndoesErase<E>(s: seq<E>, e: E, end: E)
    requires e in s && Distinct(s) && end !in s
    ensures InsertedBefore(Erased(s, e), e, NextOf(s, e, end)) == s
  {
    NextKeepsIndex(s, e, end);
    ErasedAt(s, e);
    PutBack(s, IndexOf(s, e));
  }

  lemma PutBack<E>(s: seq<E>, i: nat)
    requires i < |s|
    ensures var shorter := s[..i] + s[i + 1..]; shorter[..i] + [s[i]] + shorter[i..] == s
  {
  }

  // ---------------------------------------------------------------------------------------------
  // Multisets with distinct keys: their keys in order, changed in place
  // ---------------------------------------------------------------------------------------------

  predicate Increasing(s: seq<int>) {
    forall i, j :: 0 <= i < j < |s| ==> s[i] < s[j]
  }

  function InsertedKey(s: seq<int>, k: int): seq<int> {
    if s == [] then [k] else if k < s[0] then [k] + s else [s[0]] + InsertedKey(s[1..], k)
  }

  lemma InFront(x: int, s: seq<int>)
    requires Increasing(s) && (s != [] ==> x < s[0])
    ensures Increasing([x] + s) && ([x] + s)[1..] == s
  {
  }

  lemma {:induction false} InsertKey(s: seq<int>, k: int)
    requires Increasing(s) && k !in s
    ensures Increasing(InsertedKey(s, k)) && Erased(InsertedKey(s, k), k) == s
    ensures InsertedKey(s, k)[0] == if s != [] && s[0] < k then s[0] else k
  {
    if s != [] && s[0] < k {
      InsertKey(s[1..], k);
      InFront(s[0], InsertedKey(s[1..], k));
      assert s == [s[0]] + s[1..];
    } else {
      InFront(k, s);
      assert InsertedKey(s, k) == [k] + s;
    }
  }

  lemma {:induction false} EraseKey(s: seq<int>, k: int)
    requires Increasing(s) && k in s
    ensures Increasing(Erased(s, k)) && InsertedKey(Erased(s, k), k) == s
    ensures Erased(s, k) == [] || Erased(s, k)[0] >= s[0]
  {
    assert s == [s[0]] + s[1..];
    if s[0] != k {
      EraseKey(s[1..], k);
      InFront(s[0], Erased(s[1..], k));
    }
  }

  // ---------------------------------------------------------------------------------------------
  // Operations, events, and the log
  // ---------------------------------------------------------------------------------------------

  /** All structures a transaction works on, by their kind. */
  datatype Lib = Lib(queues: seq<Split<nat>>, stacks: seq<Split<nat>>, lists: seq<seq<nat>>, multisets: seq<seq<int>>)

  datatype Op =
    | PushQueue(i: nat, e: nat) | PopQueue(i: nat)
    | PushStack(i: nat, e: nat) | PopStack(i: nat)
    | InsertList(i: nat, e: nat, position: nat) | EraseList(i: nat, e: nat)
    | InsertMultiset(i: nat, key: int) | EraseMultiset(i: nat, key: int)

  /** What an operation leaves in the log. */
  datatype Event =
    | QueuePushed(i: nat, e: nat) | QueuePopped(i: nat, e: nat, useLocal: bool)
    | StackPushed(i: nat, e: nat) | StackPopped(i: nat, e: nat, useLocal: bool)
    | ListInserted(i: nat, e: nat) | ListErased(i: nat, e: nat, position: nat)
    | MultisetInserted(i: nat, key: int) | MultisetErased(i: nat, key: int)

  predicate Exists(lib: Lib, op: Op) {
    match op
    case PushQueue(i, _) => i < |lib.queues|
    case PopQueue(i) => i < |lib.queues|
    case PushStack(i, _) => i < |lib.stacks|
    case PopStack(i) => i < |lib.stacks|
    case InsertList(i, _, _) => i < |lib.lists|
    case EraseList(i, _) => i < |lib.lists|
    case InsertMultiset(i, _) => i < |lib.multisets|
    case EraseMultiset(i, _) => i < |lib.multisets|
  }

  /** What the caller has to see to: an entry to insert is not in the structure yet, an entry to erase or a
      position is in the list, nothing is popped from an empty structure, and keys stay distinct. For an entry
      to push, only the local sequence matters. */
  predicate Legal(lib: Lib, op: Op) {
    && Exists(lib, op)
    && match op
       case PushQueue(i, e) => e !in lib.queues[i].local
       case PopQueue(i) => HasEntries(lib.queues[i])
       case PushStack(i, e) => e !in lib.stacks[i].local
       case PopStack(i) => HasEntries(lib.stacks[i])
       case InsertList(i, e, position) =>
         e != END && e !in lib.lists[i] && (position == END || position in lib.lists[i])
       case EraseList(i, e) => e in lib.lists[i]
       case InsertMultiset(i, key) => key !in lib.multisets[i]
       case EraseMultiset(i, key) => key in lib.multisets[i]
  }

  function PutQueue(lib: Lib, i: nat, q: Split<nat>): Lib
    requires i < |lib.queues|
  {
    lib.(queues := lib.queues[i := q])
  }

  function PutStack(lib: Lib, i: nat, q: Split<nat>): Lib
    requires i < |lib.stacks|
  {
    lib.(stacks := lib.stacks[i := q])
  }

  function PutList(lib: Lib, i: nat, s: seq<nat>): Lib
    requires i < |lib.lists|
  {
    lib.(lists := lib.lists[i := s])
  }

  function PutMultiset(lib: Lib, i: nat, s: seq<int>): Lib
    requires i < |lib.multisets|
  {
    lib.(multisets := lib.multisets[i := s])
  }

  /** The execution phase of an operation. */
  function Exec(lib: Lib, op: Op): (r: (Lib, Event))
    requires Legal(lib, op)
  {
    match op
    case PushQueue(i, e) => (PutQueue(lib, i, Push(lib.queues[i], e)), QueuePushed(i, e))
    case PopQueue(i) =>
      var q := lib.queues[i];
      (PutQueue(lib, i, QueuePop(q)), QueuePopped(i, QueueFront(q), QueuePopsLocal(q)))
    case PushStack(i, e) => (PutStack(lib, i, Push(lib.stacks[i], e)), StackPushed(i, e))
    case PopStack(i) =>
      var q := lib.stacks[i];
      (PutStack(lib, i, StackPop(q)), StackPopped(i, StackTop(q), StackPopsLocal(q)))
    case InsertList(i, e, position) =>
      (PutList(lib, i, InsertedBefore(lib.lists[i], e, position)), ListInserted(i, e))
    case EraseList(i, e) =>
      (PutList(lib, i, Erased(lib.lists[i], e)), ListErased(i, e, NextOf(lib.lists[i], e, END)))
    case InsertMultiset(i, key) => (PutMultiset(lib, i, InsertedKey(lib.multisets[i], key)), MultisetInserted(i, key))
    case EraseMultiset(i, key) => (PutMultiset(lib, i, Erased(lib.multisets[i], key)), MultisetErased(i, key))
  }

  /** txlib_event_undo; events that name no structure cannot occur. */
  function Undo(lib: Lib, event: Event): Lib {
    match event
    case QueuePushed(i, e) => if i < |lib.queues| then PutQueue(lib, i, UndoPush(lib.queues[i], e)) else lib
    case QueuePopped(i, e, useLocal) =>
      if i < |lib.queues| then PutQueue(lib, i, UndoQueuePop(lib.queues[i], e, useLocal)) else lib
    case StackPushed(i, e) => if i < |lib.stacks| then PutStack(lib, i, UndoPush(lib.stacks[i], e)) else lib
    case StackPopped(i, e, useLocal) =>
      if i < |lib.stacks| then PutStack(lib, i, UndoStackPop(lib.stacks[i], e, useLocal)) else lib
    case ListInserted(i, e) => if i < |lib.lists| then PutList(lib, i, Erased(lib.lists[i], e)) else lib
    case ListErased(i, e, position) =>
      if i < |lib.lists| then PutList(lib, i, InsertedBefore(lib.lists[i], e, position)) else lib
    case MultisetInserted(i, key) =>
      if i < |lib.multisets| then PutMultiset(lib, i, Erased(lib.multisets[i], key)) else lib
    case MultisetErased(i, key) =>
      if i < |lib.multisets| then PutMultiset(lib, i, InsertedKey(lib.multisets[i], key)) else lib
  }

  /** txlib_event_apply: only push events do something. */
  function Apply(lib: Lib, event: Event): Lib {
    match event
    case QueuePushed(i, e) => if i < |lib.queues| then PutQueue(lib, i, ApplyPush(lib.queues[i], e)) else lib
    case StackPushed(i, e) => if i < |lib.stacks| then PutStack(lib, i, ApplyPush(lib.stacks[i], e)) else lib
    case _ => lib
  }

  predicate LegalRun(lib: Lib, ops: seq<Op>)
    decreases |ops|
  {
    ops == [] || (Legal(lib, ops[0]) && LegalRun(Exec(lib, ops[0]).0, ops[1..]))
  }

  /** The state and the log after a run of operations. */
  function Run(lib: Lib, ops: seq<Op>): (r: (Lib, seq<Event>))
    requires LegalRun(lib, ops)
    decreases |ops|
  {
    if ops == [] then (lib, [])
    else
      var (between, event) := Exec(lib, ops[0]);
      var (after, events) := Run(between, ops[1..]);
      (after, [event] + events)
  }

  /** picotm_events_rev_foreach1 with undo: last event first. */
  function UndoAll(lib: Lib, events: seq<Event>): Lib {
    if events == [] then lib else Undo(UndoAll(lib, events[1..]), events[0])
  }

  /** picotm_events_foreach1 with apply. */
  function ApplyAll(lib: Lib, events: seq<Event>): Lib
    decreases |events|
  {
    if events == [] then lib else ApplyAll(Apply(lib, events[0]), events[1..])
  }

  // ---------------------------------------------------------------------------------------------
  // Rollback
  // ---------------------------------------------------------------------------------------------

  /** Entries are in one place of a list only, keys are distinct and in order. */
  ghost predicate WellFormed(lib: Lib) {
    && (forall i :: 0 <= i < |lib.lists| ==> Distinct(lib.lists[i]) && END !in lib.lists[i])
    && (forall i :: 0 <= i < |lib.multisets| ==> Increasing(lib.multisets[i]))
  }

  lemma InsertedDistinct(s: seq<nat>, e: nat, position: nat)
    requires Distinct(s) && END !in s && e !in s && e != END
    ensures Distinct(InsertedBefore(s, e, position)) && END !in InsertedBefore(s, e, position)
  {
    var i, longer := IndexOf(s, position), InsertedBefore(s, e, position);
    assert forall k :: 0 <= k < |longer| ==> longer[k] == if k < i then s[k] else if k == i then e else s[k - 1];
  }

  lemma ErasedDistinct(s: seq<nat>, e: nat)
    requires Distinct(s) && END !in s && e in s
    ensures Distinct(Erased(s, e)) && END !in Erased(s, e)
  {
    ErasedAt(s, e);
  }

  lemma ExecKeepsWellFormed(lib: Lib, op: Op)
    requires WellFormed(lib) && Legal(lib, op)
    ensures WellFormed(Exec(lib, op).0)
  {
    match op
    case InsertList(i, e, position) => InsertedDistinct(lib.lists[i], e, position);
    case EraseList(i, e) => ErasedDistinct(lib.lists[i], e);
    case InsertMultiset(i, key) => InsertKey(lib.multisets[i], key);
    case EraseMultiset(i, key) => EraseKey(lib.multisets[i], key);
    case _ =>
  }

  lemma {:induction false} ErasedLast(s: seq<nat>, e: nat)
    requires e !in s
    ensures Erased(s + [e], e) == s
  {
    if s != [] {
      ErasedLast(s[1..], e);
      assert (s + [e])[1..] == s[1..] + [e];
    }
  }

  lemma QueuePopUndone(q: Split<nat>)
    requires HasEntries(q)
    ensures UndoQueuePop(QueuePop(q), QueueFront(q), QueuePopsLocal(q)) == q
  {
    var s := if QueuePopsLocal(q) then q.local else q.shared;
    assert [s[0]] + s[1..] == s;
  }

  lemma StackPopUndone(q: Split<nat>)
    requires HasEntries(q)
    ensures UndoStackPop(StackPop(q), StackTop(q), StackPopsLocal(q)) == q
  {
    var s := if StackPopsLocal(q) then q.local else q.shared;
    assert s[..|s| - 1] + [s[|s| - 1]] == s;
  }

  /** Undoing an operation's event right away restores everything. */
  lemma UndoInvertsExec(lib: Lib, op: Op)
    requires WellFormed(lib) && Legal(lib, op)
    ensures var (after, event) := Exec(lib, op); Undo(after, event) == lib
  {
    if op.InsertList? || op.EraseList? || op.InsertMultiset? || op.EraseMultiset? {
      UndoInvertsInPlace(lib, op);
    } else {
      UndoInvertsSplit(lib, op);
    }
  }

  lemma UndoInvertsSplit(lib: Lib, op: Op)
    requires Legal(lib, op) && (op.PushQueue? || op.PopQueue? || op.PushStack? || op.PopStack?)
    ensures var (after, event) := Exec(lib, op); Undo(after, event) == lib
  {
    match op
    case PushQueue(i, e) => ErasedLast(lib.queues[i].local, e);
    case PopQueue(i) => QueuePopUndone(lib.queues[i]);
    case PushStack(i, e) => ErasedLast(lib.stacks[i].local, e);
    case PopStack(i) => StackPopUndone(lib.stacks[i]);
  }

  lemma UndoInvertsInPlace(lib: Lib, op: Op)
    requires WellFormed(lib) && Legal(lib, op)
    requires op.InsertList? || op.EraseList? || op.InsertMultiset? || op.EraseMultiset?
    ensures var (after, event) := Exec(lib, op); Undo(after, event) == lib
  {
    match op
    case InsertList(i, e, position) => UndoInvertsInsertList(lib, i, e, position);
    case EraseList(i, e) => UndoInvertsEraseList(lib, i, e);
    case InsertMultiset(i, key) =>
      InsertKey(lib.multisets[i], key);
      MultisetRestored(lib, i, InsertedKey(lib.multisets[i], key));
    case EraseMultiset(i, key) =>
      EraseKey(lib.multisets[i], key);
      MultisetRestored(lib, i, Erased(lib.multisets[i], key));
  }

  lemma UndoInvertsInsertList(lib: Lib, i: nat, e: nat, position: nat)
    requires Legal(lib, InsertList(i, e, position))
    ensures Undo(PutList(lib, i, InsertedBefore(lib.lists[i], e, position)), ListInserted(i, e)) == lib
  {
    EraseUndoesInsert(lib.lists[i], e, position);
    ListRestored(lib, i, InsertedBefore(lib.lists[i], e, position));
  }

  lemma UndoInvertsEraseList(lib: Lib, i: nat, e: nat)
    requires WellFormed(lib) && Legal(lib, EraseList(i, e))
    ensures Undo(PutList(lib, i, Erased(lib.lists[i], e)), ListErased(i, e, NextOf(lib.lists[i], e, END))) == lib
  {
    InsertUndoesErase(lib.lists[i], e, END);
    ListRestored(lib, i, Erased(lib.lists[i], e));
  }

  lemma ListRestored(lib: Lib, i: nat, s: seq<nat>)
    requires i < |lib.lists|
    ensures PutList(PutList(lib, i, s), i, lib.lists[i]) == lib
  {
  }

  lemma MultisetRestored(lib: Lib, i: nat, s: seq<int>)
    requires i < |lib.multisets|
    ensures PutMultiset(PutMultiset(lib, i, s), i, lib.multisets[i]) == lib
  {
  }

  /** Whatever a transaction did to any number of queues, stacks, lists and multisets, in whatever order,
      walking its log backwards restores every shared and every local sequence. */
  lemma {:induction false} UndoRestores(lib: Lib, ops: seq<Op>)
    requires WellFormed(lib) && LegalRun(lib, ops)
    ensures var (after, events) := Run(lib, ops); UndoAll(after, events) == lib
    decreases |ops|
  {
    if ops != [] {
      var (between, event) := Exec(lib, ops[0]);
      var (after, events) := Run(between, ops[1..]);
      ExecKeepsWellFormed(lib, ops[0]);
      UndoRestores(between, ops[1..]);
      assert ([event] + events)[1..] == events;
      UndoInvertsExec(lib, ops[0]);
    }
  }

  /** The backward walk passes through the states of the run: undoing all events but the first k leaves what the first k
      operations had made. */
  lemma {:induction false} UndoPassesThrough(lib: Lib, ops: seq<Op>, k: nat)
    requires WellFormed(lib) && LegalRun(lib, ops) && k <= |ops|
    ensures var (after, events) := Run(lib, ops);
            |events| == |ops| && LegalRun(lib, ops[..k]) && UndoAll(after, events[k..]) == Run(lib, ops[..k]).0
    decreases |ops|
  {
    UndoRestores(lib, ops);
    if ops != [] {
      var (between, event) := Exec(lib, ops[0]);
      var (after, events) := Run(between, ops[1..]);
      ExecKeepsWellFormed(lib, ops[0]);
      UndoPassesThrough(between, ops[1..], if k == 0 then 0 else k - 1);
      if k > 0 {
        assert ([event] + events)[k..] == events[k - 1..];
        assert ops[..k][1..] == ops[1..][..k - 1] && ops[..k][0] == ops[0];
      }
    }
  }

  lemma {:induction false} RunLast(lib: Lib, ops: seq<Op>)
    requires LegalRun(lib, ops) && ops != []
    ensures LegalRun(lib, ops[..|ops| - 1]) && Legal(Run(lib, ops[..|ops| - 1]).0, ops[|ops| - 1])
    ensures Run(lib, ops).0 == Exec(Run(lib, ops[..|ops| - 1]).0, ops[|ops| - 1]).0
    decreases |ops|
  {
    var most := ops[..|ops| - 1];
    if |ops| > 1 {
      RunLast(Exec(lib, ops[0]).0, ops[1..]);
      assert most[1..] == ops[1..][..|ops| - 2] && most[0] == ops[0];
    }
  }

  /** When the backward walk comes to a push to a stack, the pushed entry is the top of the local stack. */
  lemma StackUndoFindsTop(lib: Lib, ops: seq<Op>, k: nat)
    requires WellFormed(lib) && LegalRun(lib, ops) && k < |ops| && ops[k].PushStack?
    ensures var (after, events) := Run(lib, ops);
            && |events| == |ops| && ops[k].i < |UndoAll(after, events[k + 1..]).stacks|
            && var local := UndoAll(after, events[k + 1..]).stacks[ops[k].i].local;
               local != [] && local[|local| - 1] == ops[k].e
  {
    UndoPassesThrough(lib, ops, k + 1);
    RunLast(lib, ops[..k + 1]);
    assert ops[..k + 1][..k] == ops[..k];
  }

  // ---------------------------------------------------------------------------------------------
  // Commit
  // ---------------------------------------------------------------------------------------------

  /** The pushed entries of one queue or stack, in log order. */
  function QueuePushes(events: seq<Event>, i: nat): seq<nat> {
    if events == [] then []
    else if events[0].QueuePushed? && events[0].i == i then [events[0].e] + QueuePushes(events[1..], i)
    else QueuePushes(events[1..], i)
  }

  function StackPushes(events: seq<Event>, i: nat): seq<nat> {
    if events == [] then []
    else if events[0].StackPushed? && events[0].i == i then [events[0].e] + StackPushes(events[1..], i)
    else StackPushes(events[1..], i)
  }

  function ApplyPushes(q: Split<nat>, pushes: seq<nat>): Split<nat>
    decreases |pushes|
  {
    if pushes == [] then q else ApplyPushes(ApplyPush(q, pushes[0]), pushes[1..])
  }

  /** The replay treats every structure by itself, and leaves lists and multisets alone. */
  lemma {:induction false} ApplyAllBySplit(lib: Lib, events: seq<Event>)
    ensures var r := ApplyAll(lib, events);
            && |r.queues| == |lib.queues| && |r.stacks| == |lib.stacks|
            && r.lists == lib.lists && r.multisets == lib.multisets
            && (forall i :: 0 <= i < |lib.queues| ==> r.queues[i] == ApplyPushes(lib.queues[i], QueuePushes(events, i)))
            && (forall i :: 0 <= i < |lib.stacks| ==> r.stacks[i] == ApplyPushes(lib.stacks[i], StackPushes(events, i)))
    decreases |events|
  {
    if events != [] {
      ApplyAllBySplit(Apply(lib, events[0]), events[1..]);
    }
  }

  /** l is a subsequence of p. */
  predicate Subseq(l: seq<nat>, p: seq<nat>) {
    l == [] || (p != [] && if l[0] == p[0] then Subseq(l[1..], p[1..]) else Subseq(l, p[1..]))
  }

  lemma {:induction false} SubseqDropFirst(l: seq<nat>, p: seq<nat>)
    requires Subseq(l, p) && l != []
    ensures Subseq(l[1..], p)
    decreases |p|, 0
  {
    if l[0] == p[0] {
      SubseqLonger(l[1..], p[0], p[1..]);
      assert [p[0]] + p[1..] == p;
    } else {
      SubseqDropFirst(l, p[1..]);
      SubseqLonger(l[1..], p[0], p[1..]);
      assert [p[0]] + p[1..] == p;
    }
  }

  lemma {:induction false} SubseqLonger(l: seq<nat>, x: nat, p: seq<nat>)
    requires Subseq(l, p)
    ensures Subseq(l, [x] + p)
    decreases |p|, 1
  {
    assert ([x] + p)[1..] == p;
    if l != [] && l[0] == x {
      SubseqDropFirst(l, p);
    }
  }

  lemma {:induction false} SubseqDropLast(l: seq<nat>, p: seq<nat>)
    requires Subseq(l, p) && l != []
    ensures Subseq(l[..|l| - 1], p)
    decreases |p|
  {
    if |l| > 1 {
      if l[0] == p[0] {
        SubseqDropLast(l[1..], p[1..]);
        assert l[1..][..|l| - 2] == l[..|l| - 1][1..];
      } else {
        SubseqDropLast(l, p[1..]);
      }
    }
  }

  lemma {:induction false} SubseqAppend(l: seq<nat>, p: seq<nat>, x: nat)
    requires Subseq(l, p)
    ensures Subseq(l + [x], p + [x])
    decreases |p|
  {
    if p == [] {
      assert (l + [x])[1..] == [] && (p + [x])[1..] == [];
    } else {
      assert (p + [x])[1..] == p[1..] + [x];
      if l != [] && l[0] == p[0] {
        SubseqAppend(l[1..], p[1..], x);
        assert (l + [x])[1..] == l[1..] + [x];
      } else {
        SubseqAppend(l, p[1..], x);
        if l == [] && x == p[0] {
          assert ([x])[1..] == [];
        }
      }
    }
  }

  /** Greedy replay moves all local entries, in order, if they were pushed in that order. */
  lemma {:induction false} ReplayMovesAll(q: Split<nat>, pushes: seq<nat>)
    requires Subseq(q.local, pushes)
    ensures ApplyPushes(q, pushes) == Split(q.shared + q.local, [])
    decreases |pushes|
  {
    if pushes != [] {
      var q' := ApplyPush(q, pushes[0]);
      assert q.local != [] && q.local[0] == pushes[0] ==> q'.shared + q'.local == q.shared + q.local;
      ReplayMovesAll(q', pushes[1..]);
    } else {
      assert q.shared + q.local == q.shared;
    }
  }

  /** The pushes so far, before the run and in it, contain the local entries as a subsequence. */
  ghost predicate Covered(lib: Lib, queuePushes: seq<seq<nat>>, stackPushes: seq<seq<nat>>) {
    && |queuePushes| == |lib.queues| && |stackPushes| == |lib.stacks|
    && (forall i :: 0 <= i < |lib.queues| ==> Subseq(lib.queues[i].local, queuePushes[i]))
    && (forall i :: 0 <= i < |lib.stacks| ==> Subseq(lib.stacks[i].local, stackPushes[i]))
  }

  function AddPush(pushes: seq<seq<nat>>, i: nat, e: nat): seq<seq<nat>> {
    if i < |pushes| then pushes[i := pushes[i] + [e]] else pushes
  }

  function QueuePushesAfter(pushes: seq<seq<nat>>, event: Event): seq<seq<nat>> {
    if event.QueuePushed? then AddPush(pushes, event.i, event.e) else pushes
  }

  function StackPushesAfter(pushes: seq<seq<nat>>, event: Event): seq<seq<nat>> {
    if event.StackPushed? then AddPush(pushes, event.i, event.e) else pushes
  }

  lemma ExecKeepsCovered(lib: Lib, op: Op, qs: seq<seq<nat>>, ss: seq<seq<nat>>)
    requires Legal(lib, op) && Covered(lib, qs, ss)
    ensures var (after, event) := Exec(lib, op);
            Covered(after, QueuePushesAfter(qs, event), StackPushesAfter(ss, event))
  {
    match op
    case PushQueue(i, e) => SubseqAppend(lib.queues[i].local, qs[i], e);
    case PushStack(i, e) => SubseqAppend(lib.stacks[i].local, ss[i], e);
    case PopQueue(i) =>
      if QueuePopsLocal(lib.queues[i]) {
        SubseqDropFirst(lib.queues[i].local, qs[i]);
      }
    case PopStack(i) =>
      if StackPopsLocal(lib.stacks[i]) {
        SubseqDropLast(lib.stacks[i].local, ss[i]);
      }
    case _ =>
  }

  lemma {:induction false} RunKeepsCovered(lib: Lib, ops: seq<Op>, qs: seq<seq<nat>>, ss: seq<seq<nat>>)
    requires LegalRun(lib, ops) && Covered(lib, qs, ss)
    ensures var (after, events) := Run(lib, ops);
            && |after.queues| == |qs| && |after.stacks| == |ss|
            && (forall i :: 0 <= i < |qs| ==> Subseq(after.queues[i].local, qs[i] + QueuePushes(events, i)))
            && (forall i :: 0 <= i < |ss| ==> Subseq(after.stacks[i].local, ss[i] + StackPushes(events, i)))
    decreases |ops|
  {
    if ops == [] {
      assert forall i :: 0 <= i < |qs| ==> qs[i] + [] == qs[i];
      assert forall i :: 0 <= i < |ss| ==> ss[i] + [] == ss[i];
    } else {
      var (between, event) := Exec(lib, ops[0]);
      var (after, events) := Run(between, ops[1..]);
      ExecKeepsCovered(lib, ops[0], qs, ss);
      var qs', ss' := QueuePushesAfter(qs, event), StackPushesAfter(ss, event);
      RunKeepsCovered(between, ops[1..], qs', ss');
      assert ([event] + events)[1..] == events;
      forall i | 0 <= i < |qs| ensures qs'[i] + QueuePushes(events, i) == qs[i] + QueuePushes([event] + events, i) {
      }
      forall i | 0 <= i < |ss| ensures ss'[i] + StackPushes(events, i) == ss[i] + StackPushes([event] + events, i) {
      }
    }
  }

  /** No structure has local entries, as between transactions. */
  predicate Published(lib: Lib) {
    && (forall i :: 0 <= i < |lib.queues| ==> lib.queues[i].local == [])
    && (forall i :: 0 <= i < |lib.stacks| ==> lib.stacks[i].local == [])
  }

  function Merged(q: Split<nat>): Split<nat> {
    Split(q.shared + q.local, [])
  }

  /** Commit publishes: after any legal run, replaying the log moves all local entries of every queue and
      stack behind the shared ones, in order, also those that were pushed, popped and pushed again. */
  lemma CommitPublishes(lib: Lib, ops: seq<Op>)
    requires LegalRun(lib, ops) && Published(lib)
    ensures var (after, events) := Run(lib, ops);
            ApplyAll(after, events) ==
            Lib(seq(|after.queues|, i requires 0 <= i < |after.queues| => Merged(after.queues[i])),
                seq(|after.stacks|, i requires 0 <= i < |after.stacks| => Merged(after.stacks[i])),
                after.lists, after.multisets)
  {
    var (after, events) := Run(lib, ops);
    var none: seq<nat> := [];
    var qs, ss := seq(|lib.queues|, _ => none), seq(|lib.stacks|, _ => none);
    RunKeepsCovered(lib, ops, qs, ss);
    ApplyAllBySplit(after, events);
    forall i | 0 <= i < |after.queues| ensures ApplyAll(after, events).queues[i] == Merged(after.queues[i]) {
      assert qs[i] + QueuePushes(events, i) == QueuePushes(events, i);
      ReplayMovesAll(after.queues[i], QueuePushes(events, i));
    }
    forall i | 0 <= i < |after.stacks| ensures ApplyAll(after, events).stacks[i] == Merged(after.stacks[i]) {
      assert ss[i] + StackPushes(events, i) == StackPushes(events, i);
      ReplayMovesAll(after.stacks[i], StackPushes(events, i));
    }
  }

  // ---------------------------------------------------------------------------------------------
  // A transaction is its operations, run directly on the shared structures
  // ---------------------------------------------------------------------------------------------

  /** Where a key belongs. */
  function FirstAbove(s: seq<int>, key: int): (k: nat)
    ensures k <= |s| && (forall j :: 0 <= j < k ==> s[j] <= key) && (k < |s| ==> s[k] > key)
  {
    if s == [] || s[0] > key then 0 else 1 + FirstAbove(s[1..], key)
  }

  /** An operation without a transaction: all structures are plain sequences, in which an entry stands at its place. */
  function Direct(lib: Lib, op: Op): Lib
    requires Legal(lib, op)
  {
    match op
    case PushQueue(i, e) => PutQueue(lib, i, Split(lib.queues[i].shared + [e], lib.queues[i].local))
    case PopQueue(i) =>
      var s := lib.queues[i].shared;
      if s == [] then lib else PutQueue(lib, i, Split(s[1..], lib.queues[i].local))
    case PushStack(i, e) => PutStack(lib, i, Split(lib.stacks[i].shared + [e], lib.stacks[i].local))
    case PopStack(i) =>
      var s := lib.stacks[i].shared;
      if s == [] then lib else PutStack(lib, i, Split(s[..|s| - 1], lib.stacks[i].local))
    case InsertList(i, e, position) =>
      var s := lib.lists[i];
      PutList(lib, i, Inserted(s, IndexOf(s, position), e))
    case EraseList(i, e) => PutList(lib, i, Removed(lib.lists[i], IndexOf(lib.lists[i], e)))
    case InsertMultiset(i, key) =>
      var s := lib.multisets[i];
      PutMultiset(lib, i, Inserted(s, FirstAbove(s, key), key))
    case EraseMultiset(i, key) => PutMultiset(lib, i, Removed(lib.multisets[i], IndexOf(lib.multisets[i], key)))
  }

  predicate DirectLegalRun(lib: Lib, ops: seq<Op>)
    decreases |ops|
  {
    ops == [] || (Legal(lib, ops[0]) && DirectLegalRun(Direct(lib, ops[0]), ops[1..]))
  }

  function DirectRun(lib: Lib, ops: seq<Op>): Lib
    requires DirectLegalRun(lib, ops)
    decreases |ops|
  {
    if ops == [] then lib else DirectRun(Direct(lib, ops[0]), ops[1..])
  }

  function AllMerged(lib: Lib): Lib {
    Lib(seq(|lib.queues|, i requires 0 <= i < |lib.queues| => Merged(lib.queues[i])),
        seq(|lib.stacks|, i requires 0 <= i < |lib.stacks| => Merged(lib.stacks[i])), lib.lists, lib.multisets)
  }

  lemma DirectStep(lib: Lib, op: Op)
    requires Legal(lib, op)
    ensures Legal(AllMerged(lib), op) && AllMerged(Exec(lib, op).0) == Direct(AllMerged(lib), op)
  {
    match op
    case PushQueue(i, e) => MergedPush(lib.queues[i], e);
    case PopQueue(i) => MergedQueuePop(lib.queues[i]);
    case PushStack(i, e) => MergedPush(lib.stacks[i], e);
    case PopStack(i) => MergedStackPop(lib.stacks[i]);
    case InsertList(_, _, _) =>
    case EraseList(i, e) => ErasedAt(lib.lists[i], e);
    case InsertMultiset(i, key) => InsertedKeyAt(lib.multisets[i], key);
    case EraseMultiset(i, key) => ErasedAt(lib.multisets[i], key);
  }

  lemma {:induction false} InsertedKeyAt(s: seq<int>, key: int)
    ensures InsertedKey(s, key) == Inserted(s, FirstAbove(s, key), key)
  {
    if s != [] && s[0] <= key {
      InsertedKeyAt(s[1..], key);
      var k := FirstAbove(s[1..], key);
      assert s[..k + 1] == [s[0]] + s[1..][..k];
      assert s[k + 1..] == s[1..][k..];
    }
  }

  /** What an operation in place means: a list has the entry right before its position, or at the end, and nothing else
      moves; a multiset has the key besides its old ones; and what is erased is gone. */
  lemma DirectMeans(lib: Lib, op: Op)
    requires WellFormed(lib) && Legal(lib, op)
    ensures WellFormed(Direct(lib, op))
    ensures op.InsertList? ==>
              var s, s' := lib.lists[op.i], Direct(lib, op).lists[op.i];
              && NextOf(s', op.e, END) == op.position && Erased(s', op.e) == s
              && forall x :: x in s' <==> x in s || x == op.e
    ensures op.EraseList? ==>
              var s, s' := lib.lists[op.i], Direct(lib, op).lists[op.i];
              && InsertedBefore(s', op.e, NextOf(s, op.e, END)) == s
              && forall x :: x in s' <==> x in s && x != op.e
    ensures op.InsertMultiset? ==>
              forall x :: x in Direct(lib, op).multisets[op.i] <==> x in lib.multisets[op.i] || x == op.key
    ensures op.EraseMultiset? ==>
              forall x :: x in Direct(lib, op).multisets[op.i] <==> x in lib.multisets[op.i] && x != op.key
  {
    ExecKeepsWellFormed(lib, op);
    match op
    case InsertList(i, e, position) => InsertedMeans(lib.lists[i], e, position);
    case EraseList(i, e) =>
      ErasedAt(lib.lists[i], e);
      InsertUndoesErase(lib.lists[i], e, END);
      RemovedMeans(lib.lists[i], e);
    case InsertMultiset(i, key) =>
      InsertedKeyAt(lib.multisets[i], key);
      InsertedHas(lib.multisets[i], FirstAbove(lib.multisets[i], key), key);
    case EraseMultiset(i, key) =>
      ErasedAt(lib.multisets[i], key);
      RemovedMeans(lib.multisets[i], key);
    case _ =>
  }

  lemma InsertedHas<E>(s: seq<E>, k: nat, e: E)
    requires k <= |s|
    ensures forall x :: x in Inserted(s, k, e) <==> x in s || x == e
  {
    assert s == s[..k] + s[k..];
    forall x ensures x in Inserted(s, k, e) <==> x in s || x == e {
    }
  }

  lemma InsertedMeans(s: seq<nat>, e: nat, position: nat)
    requires e !in s && END !in s && e != END && (position == END || position in s)
    ensures var s' := Inserted(s, IndexOf(s, position), e);
            && NextOf(s', e, END) == position && Erased(s', e) == s && forall x :: x in s' <==> x in s || x == e
  {
    var k := IndexOf(s, position);
    IndexIs(Inserted(s, k, e), e, k);
    EraseUndoesInsert(s, e, position);
    InsertedHas(s, k, e);
  }

  lemma RemovedMeans<E>(s: seq<E>, e: E)
    requires e in s && Distinct(s)
    ensures forall x :: x in Removed(s, IndexOf(s, e)) <==> x in s && x != e
  {
    var k := IndexOf(s, e);
    assert s == s[..k] + [e] + s[k + 1..];
    forall x ensures x in Removed(s, k) <==> x in s && x != e {
    }
  }

  lemma MergedPush(q: Split<nat>, e: nat)
    ensures Merged(Push(q, e)) == Split(Merged(q).shared + [e], [])
  {
    assert q.shared + (q.local + [e]) == q.shared + q.local + [e];
  }

  lemma MergedQueuePop(q: Split<nat>)
    requires HasEntries(q)
    ensures Merged(q).shared != [] && Merged(QueuePop(q)) == Split(Merged(q).shared[1..], [])
    ensures QueueFront(q) == Merged(q).shared[0]
  {
    if QueuePopsLocal(q) {
      assert q.shared + q.local == q.local && q.shared + q.local[1..] == q.local[1..];
    } else {
      assert (q.shared + q.local)[1..] == q.shared[1..] + q.local;
    }
  }

  lemma MergedStackPop(q: Split<nat>)
    requires HasEntries(q)
    ensures var m := Merged(q).shared;
            && m != [] && Merged(StackPop(q)) == Split(m[..|m| - 1], []) && StackTop(q) == m[|m| - 1]
  {
    var m := q.shared + q.local;
    if StackPopsLocal(q) {
      assert m[..|m| - 1] == q.shared + q.local[..|q.local| - 1];
    } else {
      assert m == q.shared && m[..|m| - 1] + q.local == m[..|m| - 1];
    }
  }

  /** A committed transaction leaves what its operations leave when they are run one after the other, directly
      on the shared structures. */
  lemma {:induction false} RunIsDirect(lib: Lib, ops: seq<Op>)
    requires LegalRun(lib, ops)
    ensures DirectLegalRun(AllMerged(lib), ops) && AllMerged(Run(lib, ops).0) == DirectRun(AllMerged(lib), ops)
    decreases |ops|
  {
    if ops != [] {
      DirectStep(lib, ops[0]);
      RunIsDirect(Exec(lib, ops[0]).0, ops[1..]);
    }
  }

  lemma CommitIsDirect(lib: Lib, ops: seq<Op>)
    requires LegalRun(lib, ops) && Published(lib)
    ensures var (after, events) := Run(lib, ops);
            DirectLegalRun(lib, ops) && ApplyAll(after, events) == DirectRun(lib, ops)
  {
    CommitPublishes(lib, ops);
    RunIsDirect(lib, ops);
    assert AllMerged(lib) == lib by {
      assert forall i :: 0 <= i < |lib.queues| ==> Merged(lib.queues[i]) == lib.queues[i];
      assert forall i :: 0 <= i < |lib.stacks| ==> Merged(lib.stacks[i]) == lib.stacks[i];
    }
  }

  // ---------------------------------------------------------------------------------------------
  // Locks
  // ---------------------------------------------------------------------------------------------

  datatype Name = QueueName(i: nat) | StackName(i: nat) | ListName(i: nat) | MultisetName(i: nat)

  /** The writer locks that an operation takes before it changes anything. */
  function WriterLocks(lib: Lib, op: Op): set<Name>
    requires Legal(lib, op)
  {
    match op
    case PushQueue(_, _) => {}
    case PopQueue(i) => if QueuePopsLocal(lib.queues[i]) then {} else {QueueName(i)}
    case PushStack(_, _) => {}
    case PopStack(i) => if StackPopsLocal(lib.stacks[i]) then {} else {StackName(i)}
    case InsertList(i, _, _) => {ListName(i)}
    case EraseList(i, _) => {ListName(i)}
    case InsertMultiset(i, _) => {MultisetName(i)}
    case EraseMultiset(i, _) => {MultisetName(i)}
  }

  function RunLocks(lib: Lib, ops: seq<Op>): set<Name>
    requires LegalRun(lib, ops)
    decreases |ops|
  {
    if ops == [] then {} else WriterLocks(lib, ops[0]) + RunLocks(Exec(lib, ops[0]).0, ops[1..])
  }

  /** txlib_tx_prepare_commit: queues and stacks with local entries are locked as well. */
  function CommitLocks(lib: Lib, ops: seq<Op>): set<Name>
    requires LegalRun(lib, ops)
  {
    var after := Run(lib, ops).0;
    RunLocks(lib, ops)
    + (set i | 0 <= i < |after.queues| && after.queues[i].local != [] :: QueueName(i))
    + (set i | 0 <= i < |after.stacks| && after.stacks[i].local != [] :: StackName(i))
  }

  /** Two states agree on all shared sequences, except of the given structures. */
  ghost predicate SharedAgrees(a: Lib, b: Lib, names: set<Name>) {
    && |a.queues| == |b.queues| && |a.stacks| == |b.stacks| && |a.lists| == |b.lists| && |a.multisets| == |b.multisets|
    && (forall i :: 0 <= i < |a.queues| && QueueName(i) !in names ==> a.queues[i].shared == b.queues[i].shared)
    && (forall i :: 0 <= i < |a.stacks| && StackName(i) !in names ==> a.stacks[i].shared == b.stacks[i].shared)
    && (forall i :: 0 <= i < |a.lists| && ListName(i) !in names ==> a.lists[i] == b.lists[i])
    && (forall i :: 0 <= i < |a.multisets| && MultisetName(i) !in names ==> a.multisets[i] == b.multisets[i])
  }

  /** In the execution phase no shared sequence changes without its writer lock. */
  lemma {:induction false} ExecutionIsLocked(lib: Lib, ops: seq<Op>)
    requires LegalRun(lib, ops)
    ensures SharedAgrees(lib, Run(lib, ops).0, RunLocks(lib, ops))
    decreases |ops|
  {
    if ops != [] {
      ExecutionIsLocked(Exec(lib, ops[0]).0, ops[1..]);
    }
  }

  /** Nor does the commit phase change one without the lock taken in the execution or prepare phase. */
  lemma CommitIsLocked(lib: Lib, ops: seq<Op>)
    requires LegalRun(lib, ops) && Published(lib)
    ensures var (after, events) := Run(lib, ops);
            SharedAgrees(after, ApplyAll(after, events), CommitLocks(lib, ops))
  {
    var (after, events) := Run(lib, ops);
    CommitPublishes(lib, ops);
    forall i | 0 <= i < |after.queues| && QueueName(i) !in CommitLocks(lib, ops)
      ensures Merged(after.queues[i]).shared == after.queues[i].shared
    {
      assert after.queues[i].local == [];
    }
    forall i | 0 <= i < |after.stacks| && StackName(i) !in CommitLocks(lib, ops)
      ensures Merged(after.stacks[i]).shared == after.stacks[i].shared
    {
      assert after.stacks[i].local == [];
    }
  }

  /** Nor does any single undo step. */
  lemma {:induction false} RollbackIsLocked(lib: Lib, ops: seq<Op>, k: nat)
    requires LegalRun(lib, ops) && WellFormed(lib) && k <= |ops|
    ensures var (after, events) := Run(lib, ops);
            |events| == |ops| && SharedAgrees(lib, UndoAll(after, events[k..]), RunLocks(lib, ops))
    decreases |ops|
  {
    UndoRestores(lib, ops);
    if ops != [] {
      var (between, event) := Exec(lib, ops[0]);
      var (after, events) := Run(between, ops[1..]);
      ExecKeepsWellFormed(lib, ops[0]);
      assert ([event] + events)[1..] == events;
      if k > 0 {
        RollbackIsLocked(between, ops[1..], k - 1);
        assert ([event] + events)[k..] == events[k - 1..];
      } else {
        RollbackIsLocked(between, ops[1..], 0);
      }
    }
  }
}
