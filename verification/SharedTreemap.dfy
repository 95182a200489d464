/** The lock-free tree map (src/picotm-lib-shared-treemap.c) in any number of threads, one slot access at a time. */
module SharedTreemap {
  import opened Common
  import opened Radix

  /** An object in memory, where they are numbered from 1 and 0 is null: a directory, or, at level 0, the value for the
      key that is its prefix, without entries. It remembers the place in the tree that it was created for. */
  datatype Obj = Obj(place: Place, entries: seq<nat>)

  datatype Slot = RootSlot | In(dir: nat, i: nat)

  /** Where a call of find_value is: how many levels are left, and at which slot it has arrived. */
  datatype Pc =
    | Idle
    | Failed                                                          // null was dereferenced
    | Read(key: nat, create: bool, level: nat, slot: Slot)            // first load
    | Create(key: nat, level: nat, slot: Slot)                        // dir_create or value_create
    | Publish(key: nat, level: nat, slot: Slot, obj: nat)             // compare-and-swap
    | Discard(key: nat, level: nat, slot: Slot, obj: nat)             // dir_destroy or value_destroy
    | Reread(key: nat, level: nat, slot: Slot)                        // second load

  /** The result of a finished call. */
  datatype Result = Result(key: nat, create: bool, value: nat)

  /** What has become of an object: only the thread that made it knows it, it is in the tree, or it was
      destroyed. */
  datatype Fate = InHands(t: nat) | InTree | Freed

  /** `published` says which object was put into which place, and `fates` what became of each; `freed` and
      `results` are histories. */
  datatype State = State(b: nat, depth: nat, root: nat, objs: seq<Obj>, pcs: seq<Pc>, published: map<Place, nat>,
                         fates: seq<Fate>, freed: seq<nat>, results: seq<Result>)

  datatype Action = Call(t: nat, key: nat, create: bool) | Run(t: nat)

  function PlaceOf(s: State, key: nat, level: nat): Place
    requires s.b > 0
  {
    Place(level, Prefix(key, level, s.b))
  }

  function Entry(s: State, place: Place): nat {
    if place in s.published then s.published[place] else 0
  }

  predicate SlotExists(s: State, slot: Slot) {
    slot.In? ==> slot.dir < |s.objs| && slot.i < |s.objs[slot.dir].entries|
  }

  function Load(s: State, slot: Slot): nat
    requires SlotExists(s, slot)
  {
    match slot
    case RootSlot => s.root
    case In(dir, i) => s.objs[dir].entries[i]
  }

  function Store(s: State, slot: Slot, obj: nat): State
    requires SlotExists(s, slot)
  {
    match slot
    case RootSlot => s.(root := obj)
    case In(dir, i) => s.(objs := s.objs[dir := s.objs[dir].(entries := s.objs[dir].entries[i := obj])])
  }

  function Goto(s: State, t: nat, pc: Pc): State
    requires t < |s.pcs|
  {
    s.(pcs := s.pcs[t := pc])
  }

  function Finish(s: State, t: nat, key: nat, create: bool, value: nat): State
    requires t < |s.pcs|
  {
    Goto(s, t, Idle).(results := s.results + [Result(key, create, value)])
  }

  /** The object that was found or created for the slot: go down into a directory, or return a value. */
  function Descend(s: State, t: nat, key: nat, create: bool, level: nat, obj: nat): State
    requires t < |s.pcs| && s.b > 0
  {
    if obj == 0 then Goto(s, t, Failed)
    else if level == 0 then Finish(s, t, key, create, obj)
    else Goto(s, t, Read(key, create, level - 1, In(obj, Index(key, level - 1, s.b))))
  }

  function NewObj(s: State, key: nat, level: nat): Obj
    requires s.b > 0
  {
    Obj(PlaceOf(s, key, level), if level == 0 then [] else seq(s.b, _ => 0))
  }

  function SetFate(fates: seq<Fate>, obj: nat, fate: Fate): seq<Fate> {
    if obj < |fates| then fates[obj := fate] else fates
  }

  /** A successful compare-and-swap. */
  function Put(s: State, place: Place, slot: Slot, obj: nat): State
    requires SlotExists(s, slot)
  {
    Store(s, slot, obj).(published := s.published[place := obj], fates := SetFate(s.fates, obj, InTree))
  }

  function Step(s: State, t: nat): (s': State)
    requires t < |s.pcs| && s.b > 0
    ensures s'.b == s.b
  {
    match s.pcs[t]
    case Idle => s
    case Failed => s
    case Read(key, create, level, slot) =>
      if !SlotExists(s, slot) then Goto(s, t, Failed)
      else if Load(s, slot) != 0 then Descend(s, t, key, create, level, Load(s, slot))
      else if create then Goto(s, t, Create(key, level, slot))
      else Finish(s, t, key, false, 0)
    case Create(key, level, slot) =>
      Goto(s.(objs := s.objs + [NewObj(s, key, level)], fates := s.fates + [InHands(t)]), t,
           Publish(key, level, slot, |s.objs|))
    case Publish(key, level, slot, obj) =>
      if !SlotExists(s, slot) then Goto(s, t, Failed)
      else if Load(s, slot) == 0 then
        Descend(Put(s, PlaceOf(s, key, level), slot, obj), t, key, true, level, obj)
      else Goto(s, t, Discard(key, level, slot, obj))
    case Discard(key, level, slot, obj) =>
      Goto(s.(freed := s.freed + [obj], fates := SetFate(s.fates, obj, Freed)), t, Reread(key, level, slot))
    case Reread(key, level, slot) =>
      if !SlotExists(s, slot) then Goto(s, t, Failed)
      else Descend(s, t, key, true, level, Load(s, slot))
  }

  /** A call may begin with any key that fits below the root. */
  function Next(s: State, a: Action): (s': State)
    requires s.b > 0
    ensures s'.b == s.b
  {
    match a
    case Call(t, key, create) =>
      if t < |s.pcs| && s.pcs[t].Idle? && Prefix(key, s.depth, s.b) == 0
      then Goto(s, t, Read(key, create, s.depth, RootSlot)) else s
    case Run(t) => if t < |s.pcs| then Step(s, t) else s
  }

  // ---------------------------------------------------------------------------------------------
  // The invariant
  // ---------------------------------------------------------------------------------------------

  /** A published object is where it was made for, below a published directory or the root. */
  ghost predicate PlaceOk(s: State, place: Place)
    requires s.b > 0
  {
    place in s.published ==>
      && 0 < s.published[place] < |s.objs| && s.objs[s.published[place]].place == place && place.level <= s.depth
      && (place.level > 0 ==> |s.objs[s.published[place]].entries| == s.b)
      && (if place.level == s.depth then place.prefix == 0 else Above(s.b, place) in s.published)
  }

  /** The entry of a published directory holds what was published in that place. */
  ghost predicate EntryOk(s: State, place: Place, i: nat) {
    place in s.published && place.level > 0 && i < s.b ==>
      && s.published[place] < |s.objs| && i < |s.objs[s.published[place]].entries|
      && s.objs[s.published[place]].entries[i] == Entry(s, Below(s.b, place, i))
  }

  /** Slots hold what was published in their place. */
  ghost predicate MemoryOk(s: State) {
    && s.b > 0 && |s.objs| > 0
    && s.root == Entry(s, Place(s.depth, 0))
    && (forall place {:trigger PlaceOk(s, place)} :: PlaceOk(s, place))
    && (forall place, i {:trigger EntryOk(s, place, i)} :: EntryOk(s, place, i))
  }

  predicate InFlight(pc: Pc, obj: nat) {
    (pc.Publish? || pc.Discard?) && pc.obj == obj
  }

  predicate IsPublished(s: State, obj: nat) {
    obj < |s.objs| && s.objs[obj].place in s.published && s.published[s.objs[obj].place] == obj
  }

  /** The slot is the place for the key at the level. */
  ghost predicate SlotOk(s: State, key: nat, level: nat, slot: Slot)
    requires s.b > 0
  {
    && Prefix(key, s.depth, s.b) == 0
    && match slot
       case RootSlot => level == s.depth
       case In(dir, i) =>
         && level < s.depth && i == Index(key, level, s.b)
         && PlaceOf(s, key, level + 1) in s.published && dir == s.published[PlaceOf(s, key, level + 1)]
  }

  ghost predicate ThreadOk(s: State, t: nat)
    requires s.b > 0 && t < |s.pcs|
  {
    match s.pcs[t]
    case Idle => true
    case Failed => false
    case Read(key, _, level, slot) => SlotOk(s, key, level, slot)
    case Create(key, level, slot) => SlotOk(s, key, level, slot)
    case Publish(key, level, slot, obj) =>
      SlotOk(s, key, level, slot) && 0 < obj < |s.objs| && s.objs[obj] == NewObj(s, key, level)
    case Discard(key, level, slot, obj) =>
      SlotOk(s, key, level, slot) && 0 < obj < |s.objs| && PlaceOf(s, key, level) in s.published
    case Reread(key, level, slot) => SlotOk(s, key, level, slot) && PlaceOf(s, key, level) in s.published
  }

  /** An object in somebody's hands is in those of its creator only. */
  ghost predicate HandsOk(s: State, t: nat, o: nat)
    requires |s.fates| == |s.objs|
  {
    t < |s.pcs| ==> (InFlight(s.pcs[t], o) <==> 0 < o < |s.objs| && s.fates[o] == InHands(t))
  }

  /** An object in the tree is published where it belongs, and the others were freed. */
  ghost predicate FateOk(s: State, o: nat)
    requires |s.fates| == |s.objs|
  {
    if 0 < o < |s.objs| then
      && (s.fates[o].InHands? ==> s.fates[o].t < |s.pcs|)
      && (IsPublished(s, o) <==> s.fates[o].InTree?)
      && (o in s.freed <==> s.fates[o].Freed?)
    else o !in s.freed
  }

  /** The fates are true, and nothing was freed twice. */
  ghost predicate ObjectsOk(s: State) {
    && |s.fates| == |s.objs|
    && (forall t, o {:trigger HandsOk(s, t, o)} :: HandsOk(s, t, o))
    && (forall o {:trigger FateOk(s, o)} :: FateOk(s, o))
    && Distinct(s.freed)
  }

  /** A creating call returned the value published for its key; another call that, or null. */
  ghost predicate ResultsOk(s: State) {
    forall i :: 0 <= i < |s.results| ==>
      var r := s.results[i];
      (r.create || r.value != 0) ==> Place(0, r.key) in s.published && s.published[Place(0, r.key)] == r.value
  }

  ghost predicate Inv(s: State) {
    && MemoryOk(s) && ObjectsOk(s) && ResultsOk(s)
    && forall t :: 0 <= t < |s.pcs| ==> ThreadOk(s, t)
  }

  /** What a thread reads in a slot is what was published for its key at its level. */
  lemma SlotMeans(s: State, key: nat, level: nat, slot: Slot)
    requires MemoryOk(s) && SlotOk(s, key, level, slot)
    ensures SlotExists(s, slot) && Load(s, slot) == Entry(s, PlaceOf(s, key, level))
    ensures PlaceOk(s, PlaceOf(s, key, level)) && (slot.In? ==> IsPublished(s, slot.dir))
  {
    assert PlaceOk(s, PlaceOf(s, key, level));
    PrefixUp(key, level, s.b);
    if slot.In? {
      var up := PlaceOf(s, key, level + 1);
      assert PlaceOk(s, up) && EntryOk(s, up, slot.i);
      assert Below(s.b, up, slot.i) == PlaceOf(s, key, level);
    }
  }

  lemma SameMemory(s: State, s': State)
    requires MemoryOk(s) && s' == s.(pcs := s'.pcs, fates := s'.fates, freed := s'.freed, results := s'.results)
    ensures MemoryOk(s')
  {
    forall q ensures PlaceOk(s', q) {
      assert PlaceOk(s, q);
    }
    forall q, i ensures EntryOk(s', q, i) {
      assert EntryOk(s, q, i);
    }
  }

  /** A thread keeps knowing what it knows as long as no place loses its object and its own object does not
      change. */
  lemma ThreadStays(s: State, s': State, u: nat)
    requires s.b > 0 && s'.b == s.b && s'.depth == s.depth && u < |s.pcs| == |s'.pcs| && s'.pcs[u] == s.pcs[u]
    requires forall q :: q in s.published ==> q in s'.published && s'.published[q] == s.published[q]
    requires |s.objs| <= |s'.objs|
    requires s.pcs[u].Publish? && s.pcs[u].obj < |s.objs| ==> s'.objs[s.pcs[u].obj] == s.objs[s.pcs[u].obj]
    requires ThreadOk(s, u)
    ensures ThreadOk(s', u)
  {
  }

  /** A thread moves on, or finishes its call; in its hands it has what it had before. */
  lemma QuietStep(s: State, s': State, t: nat)
    requires Inv(s) && t < |s.pcs| == |s'.pcs| && s' == s.(pcs := s.pcs[t := s'.pcs[t]], results := s'.results)
    requires ThreadOk(s', t) && ResultsOk(s')
    requires forall o :: InFlight(s'.pcs[t], o) <==> InFlight(s.pcs[t], o)
    ensures Inv(s')
  {
    SameMemory(s, s');
    forall u, o ensures HandsOk(s', u, o) {
      assert HandsOk(s, u, o);
    }
    forall o ensures FateOk(s', o) {
      assert FateOk(s, o);
    }
    forall u | 0 <= u < |s.pcs| ensures ThreadOk(s', u) {
      if u != t {
        ThreadStays(s, s', u);
      }
    }
  }

  lemma DescendKeepsInv(s: State, t: nat, key: nat, create: bool, level: nat, slot: Slot)
    requires Inv(s) && t < |s.pcs| && SlotOk(s, key, level, slot) && PlaceOf(s, key, level) in s.published
    requires !s.pcs[t].Publish? && !s.pcs[t].Discard?
    ensures Inv(Descend(s, t, key, create, level, Entry(s, PlaceOf(s, key, level))))
  {
    PrefixBottom(key, s.b);
    assert PlaceOk(s, PlaceOf(s, key, level));
    QuietStep(s, Descend(s, t, key, create, level, Entry(s, PlaceOf(s, key, level))), t);
  }

  lemma CreateKeepsInv(s: State, t: nat)
    requires Inv(s) && t < |s.pcs| && s.pcs[t].Create?
    ensures Inv(Step(s, t))
  {
    var s' := Step(s, t);
    var n := |s.objs|;
    assert ThreadOk(s, t);
    CreateMemory(s, t);
    forall u, o ensures HandsOk(s', u, o) {
      assert HandsOk(s, u, o) && HandsOk(s, u, n);
    }
    forall o ensures FateOk(s', o) {
      assert FateOk(s, o);
      assert PlaceOk(s, PlaceOf(s, s.pcs[t].key, s.pcs[t].level));
    }
    forall u | 0 <= u < |s.pcs| ensures ThreadOk(s', u) {
      if u != t {
        ThreadStays(s, s', u);
      }
    }
  }

  lemma CreateMemory(s: State, t: nat)
    requires Inv(s) && t < |s.pcs| && s.pcs[t].Create?
    ensures MemoryOk(Step(s, t))
  {
    var s' := Step(s, t);
    forall q ensures PlaceOk(s', q) {
      assert PlaceOk(s, q);
    }
    forall q, i ensures EntryOk(s', q, i) {
      assert EntryOk(s, q, i) && PlaceOk(s, q);
    }
  }

  lemma DiscardKeepsInv(s: State, t: nat)
    requires Inv(s) && t < |s.pcs| && s.pcs[t].Discard?
    ensures Inv(Step(s, t))
  {
    var s', obj := Step(s, t), s.pcs[t].obj;
    assert ThreadOk(s, t) && HandsOk(s, t, obj) && FateOk(s, obj);
    SameMemory(s, s');
    forall u, o ensures HandsOk(s', u, o) {
      assert HandsOk(s, u, o);
    }
    forall o ensures FateOk(s', o) {
      assert FateOk(s, o);
      assert o in s'.freed <==> o in s.freed || o == obj;
    }
    forall u | 0 <= u < |s.pcs| ensures ThreadOk(s', u) {
      if u != t {
        ThreadStays(s, s', u);
      }
    }
  }

  /** The state right after a successful compare-and-swap. */
  function Published(s: State, t: nat, key: nat, level: nat, slot: Slot, obj: nat): State
    requires t < |s.pcs| && s.b > 0 && SlotExists(s, slot)
  {
    Goto(Put(s, PlaceOf(s, key, level), slot, obj), t, Reread(key, level, slot))
  }

  /** It fills exactly one place, with an object that was made for it. */
  lemma PublishMemory(s: State, t: nat, key: nat, level: nat, slot: Slot, obj: nat)
    requires Inv(s) && t < |s.pcs| && s.pcs[t] == Publish(key, level, slot, obj)
    requires SlotExists(s, slot) && Load(s, slot) == 0
    ensures MemoryOk(Published(s, t, key, level, slot, obj)) && PlaceOf(s, key, level) !in s.published
  {
    var s', p := Published(s, t, key, level, slot, obj), PlaceOf(s, key, level);
    assert ThreadOk(s, t);
    SlotMeans(s, key, level, slot);
    PrefixUp(key, level, s.b);
    forall q ensures PlaceOk(s', q) {
      assert PlaceOk(s, q);
    }
    forall q, i ensures EntryOk(s', q, i) {
      PublishEntry(s, t, key, level, slot, obj, q, i);
    }
  }

  lemma PublishEntry(s: State, t: nat, key: nat, level: nat, slot: Slot, obj: nat, q: Place, i: nat)
    requires Inv(s) && t < |s.pcs| && s.pcs[t] == Publish(key, level, slot, obj)
    requires SlotExists(s, slot) && Load(s, slot) == 0 && PlaceOf(s, key, level) !in s.published
    ensures EntryOk(Published(s, t, key, level, slot, obj), q, i)
  {
    assert ThreadOk(s, t) && PlaceOk(s, q) && EntryOk(s, q, i);
    var p := PlaceOf(s, key, level);
    if q == p {
      if p.level > 0 && i < s.b {
        EmptyBelow(s, p, i);
        SlotMeans(s, key, level, slot);
        assert HandsOk(s, t, obj) && FateOk(s, obj) && InFlight(s.pcs[t], obj);
      }
    } else if q in s.published && q.level > 0 && i < s.b {
      OneEntry(s, key, level, q, i);
      if slot.In? {
        assert PlaceOk(s, PlaceOf(s, key, level + 1));
      }
    }
  }

  /** Nothing is published below a place in which nothing is published. */
  lemma EmptyBelow(s: State, p: Place, i: nat)
    requires MemoryOk(s) && p !in s.published && p.level > 0 && i < s.b && p.level <= s.depth
    ensures Below(s.b, p, i) !in s.published
  {
    DivUnique(Below(s.b, p, i).prefix, s.b, p.prefix, i);
    assert Above(s.b, Below(s.b, p, i)) == p && PlaceOk(s, Below(s.b, p, i));
  }

  /** Only one entry of one directory is the place for a key at a level. */
  lemma OneEntry(s: State, key: nat, level: nat, q: Place, i: nat)
    requires s.b > 0 && q.level > 0 && i < s.b
    ensures Below(s.b, q, i) == PlaceOf(s, key, level) <==>
            q == PlaceOf(s, key, level + 1) && i == Index(key, level, s.b)
  {
    PrefixUp(key, level, s.b);
    DivUnique(Below(s.b, q, i).prefix, s.b, q.prefix, i);
  }

  lemma PublishObjects(s: State, t: nat, key: nat, level: nat, slot: Slot, obj: nat)
    requires Inv(s) && t < |s.pcs| && s.pcs[t] == Publish(key, level, slot, obj)
    requires SlotExists(s, slot) && Load(s, slot) == 0 && PlaceOf(s, key, level) !in s.published
    ensures ObjectsOk(Published(s, t, key, level, slot, obj))
  {
    var s', p := Published(s, t, key, level, slot, obj), PlaceOf(s, key, level);
    assert ThreadOk(s, t) && HandsOk(s, t, obj);
    forall u, o ensures HandsOk(s', u, o) {
      assert HandsOk(s, u, o);
    }
    forall o: nat ensures FateOk(s', o) {
      assert FateOk(s, o);
      assert 0 < o < |s.objs| ==> s'.objs[o].place == s.objs[o].place;
    }
  }

  lemma PublishKeepsInv(s: State, t: nat, key: nat, level: nat, slot: Slot, obj: nat)
    requires Inv(s) && t < |s.pcs| && s.pcs[t] == Publish(key, level, slot, obj)
    requires SlotExists(s, slot) && Load(s, slot) == 0
    ensures Inv(Published(s, t, key, level, slot, obj))
  {
    var s', p := Published(s, t, key, level, slot, obj), PlaceOf(s, key, level);
    assert ThreadOk(s, t);
    PublishMemory(s, t, key, level, slot, obj);
    PublishObjects(s, t, key, level, slot, obj);
    forall u | 0 <= u < |s.pcs| ensures ThreadOk(s', u) {
      assert ThreadOk(s, u);
      if u != t {
        if s.pcs[u].Publish? {
          OtherObject(s, t, u, key, level, slot, obj);
        }
        ThreadStays(s, s', u);
      }
    }
  }

  /** The directory that changes is published, so it is in nobody's hands. */
  lemma OtherObject(s: State, t: nat, u: nat, key: nat, level: nat, slot: Slot, obj: nat)
    requires Inv(s) && t < |s.pcs| && u < |s.pcs| && u != t
    requires SlotOk(s, key, level, slot) && s.pcs[u].Publish?
    ensures slot.In? ==> slot.dir != s.pcs[u].obj
  {
    assert HandsOk(s, u, s.pcs[u].obj) && FateOk(s, s.pcs[u].obj) && ThreadOk(s, u);
    SlotMeans(s, key, level, slot);
  }

  lemma CompareAndSwapKeepsInv(s: State, t: nat)
    requires Inv(s) && t < |s.pcs| && s.pcs[t].Publish?
    ensures Inv(Step(s, t))
  {
    var Publish(key, level, slot, obj) := s.pcs[t];
    assert ThreadOk(s, t);
    SlotMeans(s, key, level, slot);
    if Load(s, slot) == 0 {
      PublishKeepsInv(s, t, key, level, slot, obj);
      var s' := Published(s, t, key, level, slot, obj);
      assert ThreadOk(s', t);
      DescendKeepsInv(s', t, key, true, level, slot);
      assert Step(s, t) == Descend(s', t, key, true, level, obj);
    } else {
      QuietStep(s, Step(s, t), t);
    }
  }

  lemma StepKeepsInv(s: State, t: nat)
    requires Inv(s) && t < |s.pcs|
    ensures Inv(Step(s, t))
  {
    assert ThreadOk(s, t);
    match s.pcs[t]
    case Idle =>
    case Read(key, create, level, slot) =>
      SlotMeans(s, key, level, slot);
      if Load(s, slot) != 0 {
        DescendKeepsInv(s, t, key, create, level, slot);
      } else {
        QuietStep(s, Step(s, t), t);
      }
    case Create(_, _, _) => CreateKeepsInv(s, t);
    case Publish(_, _, _, _) => CompareAndSwapKeepsInv(s, t);
    case Discard(_, _, _, _) => DiscardKeepsInv(s, t);
    case Reread(key, level, slot) =>
      SlotMeans(s, key, level, slot);
      DescendKeepsInv(s, t, key, true, level, slot);
  }

  lemma NextKeepsInv(s: State, a: Action)
    requires Inv(s)
    ensures Inv(Next(s, a))
  {
    match a
    case Call(t, key, create) =>
      if Next(s, a) != s {
        QuietStep(s, Next(s, a), t);
      }
    case Run(t) =>
      if t < |s.pcs| {
        StepKeepsInv(s, t);
      }
  }

  // ---------------------------------------------------------------------------------------------
  // All runs
  // ---------------------------------------------------------------------------------------------

  /** An empty map; the object numbered 0 is null. */
  function Init(b: nat, depth: nat, threads: nat): State {
    State(b, depth, 0, [Obj(Place(depth + 1, 0), [])], seq(threads, _ => Idle), map[], [Freed], [], [])
  }

  function Reach(s: State, actions: seq<Action>): State
    requires s.b > 0
    decreases |actions|
  {
    if actions == [] then s else Reach(Next(s, actions[0]), actions[1..])
  }

  lemma InitOk(b: nat, depth: nat, threads: nat)
    requires b > 0
    ensures Inv(Init(b, depth, threads))
  {
  }

  lemma {:induction false} ReachKeepsInv(s: State, actions: seq<Action>)
    requires Inv(s)
    ensures Inv(Reach(s, actions))
    decreases |actions|
  {
    if actions != [] {
      NextKeepsInv(s, actions[0]);
      ReachKeepsInv(Next(s, actions[0]), actions[1..]);
    }
  }

  /** What one step adds to the histories; what was published stays. */
  lemma NextGrows(s: State, a: Action)
    requires Inv(s)
    ensures var s' := Next(s, a);
            && (forall q :: q in s.published ==> q in s'.published && s'.published[q] == s.published[q])
            && |s.results| <= |s'.results| && s'.results[..|s.results|] == s.results
  {
    if a.Run? && a.t < |s.pcs| && s.pcs[a.t].Publish? {
      var pc := s.pcs[a.t];
      assert ThreadOk(s, a.t);
      SlotMeans(s, pc.key, pc.level, pc.slot);
    }
  }

  /** A published slot never changes: what is published at some moment of a run is still published in the same
      place after any continuation of the run. */
  lemma {:induction false} PublishedForGood(s: State, actions: seq<Action>)
    requires Inv(s)
    ensures var s' := Reach(s, actions);
            && (forall q :: q in s.published ==> q in s'.published && s'.published[q] == s.published[q])
            && |s.results| <= |s'.results| && s'.results[..|s.results|] == s.results
    decreases |actions|
  {
    if actions != [] {
      NextKeepsInv(s, actions[0]);
      NextGrows(s, actions[0]);
      PublishedForGood(Next(s, actions[0]), actions[1..]);
    }
  }

  /** In every run, all creating calls for one key return the same value, whenever and in whatever thread, and a
      call that does not create returns that value or null; values for different keys differ, and a value was
      made for the key it is returned for. */
  lemma ResultsAgree(b: nat, depth: nat, threads: nat, actions: seq<Action>, i: nat, j: nat)
    requires b > 0
    requires var r := Reach(Init(b, depth, threads), actions).results;
             i < |r| && j < |r| && r[i].value != 0 && r[j].value != 0
    ensures var s := Reach(Init(b, depth, threads), actions);
            && (s.results[i].key == s.results[j].key <==> s.results[i].value == s.results[j].value)
            && s.results[i].value < |s.objs| && s.objs[s.results[i].value].place == Place(0, s.results[i].key)
  {
    var s := Reach(Init(b, depth, threads), actions);
    InitOk(b, depth, threads);
    ReachKeepsInv(Init(b, depth, threads), actions);
    assert PlaceOk(s, Place(0, s.results[i].key)) && PlaceOk(s, Place(0, s.results[j].key));
  }

  /** What the call for a key returned in this step, if one returned: what the map holds for the key now. */
  ghost predicate Returned(s: State, s': State) {
    || s'.results == s.results
    || (&& |s'.results| == |s.results| + 1 && s'.results[..|s.results|] == s.results
        && var r := s'.results[|s.results|]; r.value == Entry(s', Place(0, r.key)))
  }

  /** The key has the value it had before, or got one in this very step, in which the call that made it returned. */
  ghost predicate KeyOk(s: State, s': State, key: nat) {
    || Entry(s', Place(0, key)) == Entry(s, Place(0, key))
    || (Entry(s, Place(0, key)) == 0 && s'.results == s.results + [Result(key, true, Entry(s', Place(0, key)))])
  }

  /** The threads refine a finite map, one call at a time: each call has its whole effect on the map, and reads from it
      what it returns, in the step in which it returns. So a call that does not create returns null only while the key
      is not in the map. */
  lemma RefinesMap(s: State, a: Action, key: nat)
    requires Inv(s)
    ensures Returned(s, Next(s, a)) && KeyOk(s, Next(s, a), key)
  {
    if a.Run? && a.t < |s.pcs| {
      var pc := s.pcs[a.t];
      assert ThreadOk(s, a.t);
      if pc.Read? || pc.Publish? || pc.Reread? {
        SlotMeans(s, pc.key, pc.level, pc.slot);
        PrefixBottom(pc.key, s.b);
        if pc.Read? && Load(s, pc.slot) == 0 {
          NoValueBelow(s, pc.key, pc.level);
        }
      }
    }
  }

  lemma NoValueBelow(s: State, key: nat, level: nat)
    requires MemoryOk(s) && level <= s.depth && Entry(s, PlaceOf(s, key, level)) == 0
    ensures Entry(s, Place(0, key)) == 0
  {
    assert PlaceOk(s, PlaceOf(s, key, level));
    if Place(0, key) in s.published {
      AncestorPublished(s, Place(0, key), level);
    }
  }

  datatype Outcome = Wrong | Holds(values: map<nat, nat>)

  /** One call on a finite map: it returns the value of the key, or else null, or else puts a new value in. */
  function FindOrCreate(m: map<nat, nat>, r: Result): Outcome {
    if r.key in m then (if r.value == m[r.key] then Holds(m) else Wrong)
    else if !r.create then (if r.value == 0 then Holds(m) else Wrong)
    else if r.value == 0 then Wrong
    else Holds(m[r.key := r.value])
  }

  /** The calls one after the other. A result that the map does not give is wrong. */
  function Sequential(results: seq<Result>): Outcome {
    if results == [] then Holds(map[])
    else
      var before := Sequential(results[..|results| - 1]);
      if before.Wrong? then Wrong else FindOrCreate(before.values, results[|results| - 1])
  }

  /** The tree holds what the map does. */
  ghost predicate Represents(s: State, m: map<nat, nat>) {
    forall key :: Entry(s, Place(0, key)) == (if key in m then m[key] else 0) && (key in m ==> m[key] != 0)
  }

  /** No creating call has returned null. */
  ghost predicate CreatedOk(s: State) {
    forall i :: 0 <= i < |s.results| && s.results[i].create ==> s.results[i].value != 0
  }

  lemma InvCreatedOk(s: State)
    requires Inv(s)
    ensures CreatedOk(s)
  {
    forall i | 0 <= i < |s.results| && s.results[i].create ensures s.results[i].value != 0 {
      assert PlaceOk(s, Place(0, s.results[i].key));
    }
  }

  lemma NextIsSequential(s: State, a: Action, m: map<nat, nat>) returns (m': map<nat, nat>)
    requires Inv(s) && Sequential(s.results) == Holds(m) && Represents(s, m)
    ensures Sequential(Next(s, a).results) == Holds(m') && Represents(Next(s, a), m')
  {
    NextKeepsInv(s, a);
    InvCreatedOk(Next(s, a));
    RefinesMap(s, a, 0);
    forall key: nat ensures KeyOk(s, Next(s, a), key) {
      RefinesMap(s, a, key);
    }
    m' := StepIsSequential(s, Next(s, a), m);
  }

  lemma StepIsSequential(s: State, s': State, m: map<nat, nat>) returns (m': map<nat, nat>)
    requires Sequential(s.results) == Holds(m) && Represents(s, m)
    requires Returned(s, s') && CreatedOk(s') && forall key: nat :: KeyOk(s, s', key)
    ensures Sequential(s'.results) == Holds(m') && Represents(s', m')
  {
    if s'.results == s.results {
      m' := m;
      forall key: nat ensures Entry(s', Place(0, key)) == Entry(s, Place(0, key)) {
        assert KeyOk(s, s', key);
      }
    } else {
      var r := s'.results[|s.results|];
      assert s'.results == s'.results[..|s.results|] + [r];
      m' := ReturnIsSequential(s, s', r, m);
    }
  }

  lemma ReturnIsSequential(s: State, s': State, r: Result, m: map<nat, nat>) returns (m': map<nat, nat>)
    requires Sequential(s.results) == Holds(m) && Represents(s, m)
    requires s'.results == s.results + [r] && r.value == Entry(s', Place(0, r.key)) && (r.create ==> r.value != 0)
    requires forall key: nat :: KeyOk(s, s', key)
    ensures Sequential(s'.results) == Holds(m') && Represents(s', m')
  {
    m' := if r.value == 0 then m else m[r.key := r.value];
    assert s'.results[..|s'.results| - 1] == s.results;
    assert KeyOk(s, s', r.key);
    forall key: nat | key != r.key ensures Entry(s', Place(0, key)) == Entry(s, Place(0, key)) {
      assert KeyOk(s, s', key);
      assert s'.results[|s.results|] == r;
    }
  }

  /** The results, in the order in which the calls returned, are those of a finite map on which the calls are made one
      after the other, and the tree holds what that map holds. */
  lemma {:induction false} RunIsSequential(s: State, actions: seq<Action>, m: map<nat, nat>) returns (m': map<nat, nat>)
    requires Inv(s) && Sequential(s.results) == Holds(m) && Represents(s, m)
    ensures Sequential(Reach(s, actions).results) == Holds(m') && Represents(Reach(s, actions), m')
    decreases |actions|
  {
    m' := m;
    if actions != [] {
      m' := NextIsSequential(s, actions[0], m);
      NextKeepsInv(s, actions[0]);
      m' := RunIsSequential(Next(s, actions[0]), actions[1..], m');
    }
  }

  lemma ResultsAreSequential(b: nat, depth: nat, threads: nat, actions: seq<Action>)
    requires b > 0
    ensures var s := Reach(Init(b, depth, threads), actions);
            Sequential(s.results).Holds? && Represents(s, Sequential(s.results).values)
  {
    InitOk(b, depth, threads);
    var m := RunIsSequential(Init(b, depth, threads), actions, map[]);
  }

  /** No call ever dereferences null, and a creating call never returns null. */
  lemma CallsSucceed(b: nat, depth: nat, threads: nat, actions: seq<Action>)
    requires b > 0
    ensures var s := Reach(Init(b, depth, threads), actions);
            && (forall t :: 0 <= t < |s.pcs| ==> !s.pcs[t].Failed?)
            && (forall i :: 0 <= i < |s.results| && s.results[i].create ==> s.results[i].value != 0)
  {
    var s := Reach(Init(b, depth, threads), actions);
    InitOk(b, depth, threads);
    ReachKeepsInv(Init(b, depth, threads), actions);
    forall t | 0 <= t < |s.pcs| ensures !s.pcs[t].Failed? {
      assert ThreadOk(s, t);
    }
    InvCreatedOk(s);
  }

  // ---------------------------------------------------------------------------------------------
  // Teardown
  // ---------------------------------------------------------------------------------------------

  /** recursive_cleanup_dir, and value_destroy at level 0: the objects in the order in which they are freed. */
  function Cleanup(s: State, obj: nat, level: nat): seq<nat>
    decreases level, 1, 0
  {
    if obj == 0 || obj >= |s.objs| then []
    else if level == 0 then [obj]
    else CleanupEntries(s, s.objs[obj].entries, level) + [obj]
  }

  function CleanupEntries(s: State, entries: seq<nat>, level: nat): seq<nat>
    requires level > 0
    decreases level, 0, |entries|
  {
    if entries == [] then []
    else Cleanup(s, entries[0], level - 1) + CleanupEntries(s, entries[1..], level)
  }

  /** picotm_shared_treemap_uninit. */
  function Teardown(s: State): seq<nat> {
    Cleanup(s, s.root, s.depth)
  }

  /** The object is published in the subtree of p. */
  ghost predicate PublishedUnder(s: State, x: nat, p: Place)
    requires s.b > 0
  {
    0 < x && IsPublished(s, x) && s.objs[x].place.level <= p.level && Ancestor(s.b, s.objs[x].place, p.level) == p
  }

  lemma {:induction false} AncestorPublished(s: State, q: Place, level: nat)
    requires MemoryOk(s) && q in s.published && q.level <= level <= s.depth
    ensures Ancestor(s.b, q, level) in s.published
    decreases level
  {
    if level == q.level {
      PrefixBottom(q.prefix, s.b);
    } else {
      AncestorPublished(s, q, level - 1);
      PrefixUp(q.prefix, level - 1 - q.level, s.b);
      assert PlaceOk(s, Ancestor(s.b, q, level - 1));
    }
  }

  /** What is below p is below one of its entries, and what is below an entry is below p. */
  lemma UnderEntry(s: State, x: nat, p: Place, i: nat)
    requires MemoryOk(s) && p.level > 0 && i < s.b
    ensures PublishedUnder(s, x, Below(s.b, p, i)) <==>
            PublishedUnder(s, x, p) && s.objs[x].place.level < p.level
            && Ancestor(s.b, s.objs[x].place, p.level - 1).prefix % s.b == i
  {
    if IsPublished(s, x) && s.objs[x].place.level < p.level {
      AncestorEntry(s.b, s.objs[x].place, p, i);
    }
  }

  /** Cleaning up a place frees every object published in its subtree exactly once, and nothing else. */
  lemma {:induction false} CleanupCounts(s: State, p: Place, x: nat)
    requires MemoryOk(s) && p.level <= s.depth
    ensures Count(Cleanup(s, Entry(s, p), p.level), x) == if PublishedUnder(s, x, p) then 1 else 0
    decreases p.level, 1, 0
  {
    assert PlaceOk(s, p);
    if p !in s.published {
      if PublishedUnder(s, x, p) {
        AncestorPublished(s, s.objs[x].place, p.level);
      }
    } else {
      var obj := s.published[p];
      var freed := if p.level == 0 then [] else CleanupEntries(s, s.objs[obj].entries, p.level);
      PrefixBottom(p.prefix, s.b);
      if p.level > 0 {
        assert s.objs[obj].entries[0..] == s.objs[obj].entries;
        EntriesCount(s, p, 0, x);
      }
      CountBoth(freed, [obj], x);
      assert Count([obj], x) == if obj == x then 1 else 0;
      SamePlace(s, p, x);
    }
  }

  /** At its own level a place is only above itself. */
  lemma SamePlace(s: State, p: Place, x: nat)
    requires MemoryOk(s) && p in s.published
    ensures PublishedUnder(s, x, p) && s.objs[x].place.level == p.level <==> x == s.published[p]
  {
    assert PlaceOk(s, p);
    PrefixBottom(p.prefix, s.b);
    if PublishedUnder(s, x, p) && s.objs[x].place.level == p.level {
      PrefixBottom(s.objs[x].place.prefix, s.b);
    }
  }

  /** The object is below the i-th or a later entry of p. */
  ghost predicate UnderEntriesFrom(s: State, x: nat, p: Place, i: nat)
    requires s.b > 0 && p.level > 0
  {
    PublishedUnder(s, x, p) && s.objs[x].place.level < p.level
    && Ancestor(s.b, s.objs[x].place, p.level - 1).prefix % s.b >= i
  }

  lemma {:induction false} EntriesCount(s: State, p: Place, i: nat, x: nat)
    requires MemoryOk(s) && p.level <= s.depth && p in s.published && p.level > 0 && i <= s.b
    requires PlaceOk(s, p)
    ensures Count(CleanupEntries(s, s.objs[s.published[p]].entries[i..], p.level), x)
            == if UnderEntriesFrom(s, x, p, i) then 1 else 0
    decreases p.level, 0, s.b - i
  {
    var entries := s.objs[s.published[p]].entries;
    if i < s.b {
      assert EntryOk(s, p, i);
      assert entries[i..][1..] == entries[i + 1..];
      CleanupCounts(s, Below(s.b, p, i), x);
      EntriesCount(s, p, i + 1, x);
      CountBoth(Cleanup(s, entries[i], p.level - 1), CleanupEntries(s, entries[i + 1..], p.level), x);
      UnderEntry(s, x, p, i);
    }
  }

  /** Teardown frees exactly what is published, each object once. */
  lemma TeardownFreesTree(s: State, x: nat)
    requires Inv(s)
    ensures Count(Teardown(s), x) == if 0 < x && IsPublished(s, x) then 1 else 0
  {
    CleanupCounts(s, Place(s.depth, 0), x);
    if IsPublished(s, x) {
      var q := s.objs[x].place;
      assert PlaceOk(s, q);
      AncestorPublished(s, q, s.depth);
      assert PlaceOk(s, Ancestor(s.b, q, s.depth));
    }
  }

  ghost predicate AllIdle(s: State) {
    forall t :: 0 <= t < |s.pcs| ==> s.pcs[t].Idle?
  }

  lemma NobodyHolds(s: State, x: nat)
    requires Inv(s) && AllIdle(s)
    ensures 0 < x < |s.objs| ==> !s.fates[x].InHands?
    ensures 0 < x < |s.objs| ==> (IsPublished(s, x) <==> x !in s.freed)
    ensures x in s.freed ==> 0 < x < |s.objs|
  {
    assert FateOk(s, x);
    assert 0 < x < |s.objs| && s.fates[x].InHands? ==> HandsOk(s, s.fates[x].t, x);
  }

  /** Once all calls have returned, the objects freed during the run and those freed by teardown are all
      directories and values that were ever created, each of them once. */
  lemma EverythingFreedOnce(b: nat, depth: nat, threads: nat, actions: seq<Action>, x: nat)
    requires b > 0 && AllIdle(Reach(Init(b, depth, threads), actions))
    ensures var s := Reach(Init(b, depth, threads), actions);
            Count(s.freed + Teardown(s), x) == if 0 < x < |s.objs| then 1 else 0
  {
    var s := Reach(Init(b, depth, threads), actions);
    InitOk(b, depth, threads);
    ReachKeepsInv(Init(b, depth, threads), actions);
    CountBoth(s.freed, Teardown(s), x);
    CountDistinct(s.freed, x);
    TeardownFreesTree(s, x);
    NobodyHolds(s, x);
  }
}
