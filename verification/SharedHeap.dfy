/**
  shared_ptr and weak_ptr objects, their control blocks, and the objects they own.

  A handle is named by its address.  It lies either outside all owned objects
  (holder None) or inside the object owned by a block.  The recursion
  dec_use_count -> dispose -> delete p -> destructors of the members is also given as
  a stack of pending destructor actions, so that its effect can be reasoned about.
 */
module SharedHeap {

  import opened Common

  type Id = nat      // address of a handle
  type Bid = nat     // address of a control block
  type Obj = nat     // address of an owned object

  datatype Handle = Handle(strong: bool, px: Option<Obj>, pb: Option<Bid>, holder: Option<Bid>)

  /** members are the handles inside *p, in declaration order; alive says that the deleter
      has not run yet. */
  datatype Block = Block(use: int, weak: int, p: Option<Obj>, members: seq<Id>, alive: bool)

  datatype Store = Store(handles: map<Id, Handle>, blocks: map<Bid, Block>)

  /** Pending destructor work. */
  datatype Frame = DropHandle(h: Id) | GiveUpShare(b: Bid)

  function Refs(s: Store, b: Bid, strong: bool): set<Id> {
    set h | h in s.handles && s.handles[h].pb == Some(b) && s.handles[h].strong == strong
  }

  predicate Alive(s: Store, b: Bid) {
    b in s.blocks && s.blocks[b].alive
  }

  // ---------- The invariant, relative to the pending work ----------

  ghost predicate PointersOk(s: Store) {
    forall h :: h in s.handles ==>
      match s.handles[h].pb
      case None => s.handles[h].px == None
      case Some(b) => b in s.blocks && s.handles[h].px == s.blocks[b].p
  }

  /** The counters of b agree with the handles; share says that the strong group's unit of
      weak_count is still to be given up although the object is dead. */
  ghost predicate BlockOk(s: Store, b: Bid, share: bool)
    requires b in s.blocks
  {
    && s.blocks[b].use == |Refs(s, b, true)|
    && s.blocks[b].weak == |Refs(s, b, false)| + (if s.blocks[b].alive || share then 1 else 0)
    && (s.blocks[b].alive <==> s.blocks[b].use > 0)
    && s.blocks[b].weak > 0
  }

  ghost predicate CountsOk(s: Store, k: seq<Frame>) {
    forall b :: b in s.blocks ==> BlockOk(s, b, GiveUpShare(b) in k)
  }

  ghost predicate HoldersOk(s: Store, k: seq<Frame>) {
    forall h :: h in s.handles && s.handles[h].holder.Some? ==>
      var b := s.handles[h].holder.value;
      if Alive(s, b) then h in s.blocks[b].members else DropHandle(h) in k
  }

  ghost predicate MembersOk(s: Store) {
    forall b :: Alive(s, b) ==>
      && NoDup(s.blocks[b].members)
      && (forall m :: m in s.blocks[b].members ==> m in s.handles && s.handles[m].holder == Some(b))
  }

  ghost predicate FrameOk(s: Store, f: Frame) {
    match f
    case DropHandle(h) => h in s.handles && (s.handles[h].holder.Some? ==> !Alive(s, s.handles[h].holder.value))
    case GiveUpShare(b) => b in s.blocks && !s.blocks[b].alive
  }

  ghost predicate NoDup<T>(xs: seq<T>) {
    forall i, j :: 0 <= i < j < |xs| ==> xs[i] != xs[j]
  }

  ghost predicate Inv(s: Store, k: seq<Frame>) {
    && PointersOk(s)
    && CountsOk(s, k)
    && HoldersOk(s, k)
    && MembersOk(s)
    && NoDup(k)
    && (forall f :: f in k ==> FrameOk(s, f))
  }

  // ---------- The destructor cascade ----------

  /** The destructors of an object's members, last declared first. */
  function Drops(members: seq<Id>): (fs: seq<Frame>)
    ensures |fs| == |members|
    ensures forall i :: 0 <= i < |fs| ==> fs[i] == DropHandle(members[|members| - 1 - i])
  {
    if members == [] then [] else [DropHandle(members[|members| - 1])] + Drops(members[..|members| - 1])
  }

  /** fetch_sub on weak_count; the last unit frees the block. */
  function DecWeak(s: Store, b: Bid): Store
    requires b in s.blocks
  {
    if s.blocks[b].weak == 1 then s.(blocks := s.blocks - {b})
    else s.(blocks := s.blocks[b := s.blocks[b].(weak := s.blocks[b].weak - 1)])
  }

  /** fetch_sub on use_count; the last handle kills the object. */
  function DecUse(s: Store, b: Bid): Store
    requires b in s.blocks
  {
    s.(blocks := s.blocks[b := s.blocks[b].(use := s.blocks[b].use - 1,
                                                alive := s.blocks[b].alive && s.blocks[b].use != 1)])
  }

  predicate LastStrong(s: Store, h: Id)
    requires h in s.handles
  {
    s.handles[h].strong && s.handles[h].pb.Some? && s.handles[h].pb.value in s.blocks
    && s.blocks[s.handles[h].pb.value].use == 1
  }

  /** The store after the pending action f, not counting the work that f adds. */
  function After(s: Store, f: Frame): Store
    requires FrameOk(s, f) && PointersOk(s)
  {
    match f
    case GiveUpShare(b) => DecWeak(s, b)
    case DropHandle(h) =>
      var s1 := s.(handles := s.handles - {h});
      if s.handles[h].pb.None? then s1
      else if s.handles[h].strong then DecUse(s1, s.handles[h].pb.value)
      else DecWeak(s1, s.handles[h].pb.value)
  }

  /** The work that f adds in front of the rest: the members of the object that dies, then
      the strong group's unit of weak_count. */
  function Added(s: Store, f: Frame): seq<Frame>
    requires FrameOk(s, f) && PointersOk(s)
  {
    if f.DropHandle? && LastStrong(s, f.h) then
      var b := s.handles[f.h].pb.value;
      Drops(s.blocks[b].members) + [GiveUpShare(b)]
    else []
  }

  lemma RefsDrop(s: Store, h: Id, b: Bid, strong: bool)
    requires h in s.handles
    ensures Refs(s.(handles := s.handles - {h}), b, strong) == Refs(s, b, strong) - {h}
  {
  }

  /** Stores with the same handles refer to a block in the same way. */
  lemma SameRefs(s: Store, t: Store, b: Bid)
    requires s.handles == t.handles
    ensures Refs(s, b, true) == Refs(t, b, true) && Refs(s, b, false) == Refs(t, b, false)
  {
  }

  lemma DropElsewhere(s: Store, h: Id, b: Bid, share: bool)
    requires PointersOk(s) && FrameOk(s, DropHandle(h)) && b in s.blocks && s.handles[h].pb != Some(b)
    requires BlockOk(s, b, share)
    ensures var t := After(s, DropHandle(h));
            b in t.blocks && t.blocks[b] == s.blocks[b] && BlockOk(t, b, share)
  {
    var t := After(s, DropHandle(h));
    RefsDrop(s, h, b, true);
    RefsDrop(s, h, b, false);
    SameRefs(s.(handles := s.handles - {h}), t, b);
    assert h !in Refs(s, b, true) && h !in Refs(s, b, false);
  }

  lemma DropStrongHere(s: Store, h: Id, b: Bid, share: bool)
    requires PointersOk(s) && FrameOk(s, DropHandle(h)) && b in s.blocks && s.handles[h].pb == Some(b)
    requires BlockOk(s, b, share) && s.handles[h].strong
    ensures var t := After(s, DropHandle(h));
            b in t.blocks && BlockOk(t, b, share || (s.blocks[b].alive && !t.blocks[b].alive))
  {
    var t := After(s, DropHandle(h));
    RefsDrop(s, h, b, true);
    RefsDrop(s, h, b, false);
    SameRefs(s.(handles := s.handles - {h}), t, b);
    assert h in Refs(s, b, true) && h !in Refs(s, b, false);
    assert |Refs(s, b, true) - {h}| == |Refs(s, b, true)| - 1;
  }

  lemma DropWeakHere(s: Store, h: Id, b: Bid, share: bool)
    requires PointersOk(s) && FrameOk(s, DropHandle(h)) && b in s.blocks && s.handles[h].pb == Some(b)
    requires BlockOk(s, b, share) && !s.handles[h].strong
    ensures var t := After(s, DropHandle(h));
            if b in t.blocks then BlockOk(t, b, share) && t.blocks[b].alive == s.blocks[b].alive
            else !s.blocks[b].alive && !share && Refs(s, b, true) == {} && Refs(s, b, false) == {h}
  {
    var t := After(s, DropHandle(h));
    RefsDrop(s, h, b, true);
    RefsDrop(s, h, b, false);
    SameRefs(s.(handles := s.handles - {h}), t, b);
    var strong, weak := Refs(s, b, true), Refs(s, b, false);
    assert h in weak && h !in strong;
    assert |weak - {h}| == |weak| - 1;
    if b !in t.blocks {
      assert |weak - {h}| == 0 && |strong| == 0;
    }
  }

  /** Dropping handle h leaves the counters of b right. */
  lemma DropKeepsBlock(s: Store, h: Id, b: Bid, share: bool)
    requires PointersOk(s) && FrameOk(s, DropHandle(h)) && b in s.blocks && BlockOk(s, b, share)
    ensures var t := After(s, DropHandle(h));
            if b in t.blocks then BlockOk(t, b, share || (s.blocks[b].alive && !t.blocks[b].alive))
            else !s.blocks[b].alive && !share && Refs(s, b, true) == {} && Refs(s, b, false) == {h}
  {
    if s.handles[h].pb != Some(b) {
      DropElsewhere(s, h, b, share);
    } else if s.handles[h].strong {
      DropStrongHere(s, h, b, share);
    } else {
      DropWeakHere(s, h, b, share);
    }
  }

  lemma AfterDropCounts(s: Store, h: Id, rest: seq<Frame>)
    requires Inv(s, [DropHandle(h)] + rest)
    ensures FrameOk(s, DropHandle(h))
    ensures CountsOk(After(s, DropHandle(h)), Added(s, DropHandle(h)) + rest)
  {
    var k := [DropHandle(h)] + rest;
    assert k[0] == DropHandle(h);
    var t, k' := After(s, DropHandle(h)), Added(s, DropHandle(h)) + rest;
    forall b | b in t.blocks
      ensures BlockOk(t, b, GiveUpShare(b) in k')
    {
      DropKeepsBlock(s, h, b, GiveUpShare(b) in k);
      AddedShares(s, h, rest, b);
    }
  }

  lemma AddedShares(s: Store, h: Id, rest: seq<Frame>, b: Bid)
    requires PointersOk(s) && FrameOk(s, DropHandle(h)) && b in s.blocks && (s.blocks[b].alive <==> s.blocks[b].use > 0)
    requires b in After(s, DropHandle(h)).blocks
    ensures GiveUpShare(b) in Added(s, DropHandle(h)) + rest <==>
            GiveUpShare(b) in [DropHandle(h)] + rest || (s.blocks[b].alive && !After(s, DropHandle(h)).blocks[b].alive)
  {
    var added := Added(s, DropHandle(h));
    if LastStrong(s, h) {
      var c := s.handles[h].pb.value;
      assert added[|added| - 1] == GiveUpShare(c);
      assert forall f :: f in added <==> f in Drops(s.blocks[c].members) || f == GiveUpShare(c);
    }
    assert GiveUpShare(b) in added + rest <==> GiveUpShare(b) in added || GiveUpShare(b) in rest;
  }

  lemma AfterShareCounts(s: Store, b: Bid, rest: seq<Frame>)
    requires Inv(s, [GiveUpShare(b)] + rest)
    ensures FrameOk(s, GiveUpShare(b)) && Added(s, GiveUpShare(b)) == []
    ensures CountsOk(After(s, GiveUpShare(b)), rest)
    ensures b !in After(s, GiveUpShare(b)).blocks ==> Refs(s, b, true) == {} && Refs(s, b, false) == {}
  {
    var k := [GiveUpShare(b)] + rest;
    assert k[0] == GiveUpShare(b);
    assert forall i :: 0 <= i < |rest| ==> rest[i] == k[i + 1];
    var t := After(s, GiveUpShare(b));
    assert BlockOk(s, b, true);
    forall c | c in t.blocks
      ensures BlockOk(t, c, GiveUpShare(c) in rest)
    {
      assert BlockOk(s, c, GiveUpShare(c) in k);
      SameRefs(s, t, c);
    }
  }

  /** What a pending action leaves alone. */
  ghost predicate Shrinks(s: Store, t: Store) {
    && (forall h :: h in t.handles ==> h in s.handles && t.handles[h] == s.handles[h])
    && (forall b :: b in t.blocks ==>
          && b in s.blocks && t.blocks[b].p == s.blocks[b].p && t.blocks[b].members == s.blocks[b].members
          && (t.blocks[b].alive ==> s.blocks[b].alive))
  }

  lemma AfterShrinks(s: Store, f: Frame)
    requires FrameOk(s, f) && PointersOk(s)
    ensures Shrinks(s, After(s, f))
  {
  }

  /** The one block that can die, and the one that can be freed, by a pending action. */
  lemma AfterBlocks(s: Store, f: Frame, b: Bid)
    requires FrameOk(s, f) && PointersOk(s) && b in s.blocks
    ensures b !in After(s, f).blocks ==> s.blocks[b].weak == 1 && (f.DropHandle? ==> s.handles[f.h].pb == Some(b))
    ensures Alive(s, b) && b in After(s, f).blocks && !Alive(After(s, f), b) ==>
              f.DropHandle? && LastStrong(s, f.h) && s.handles[f.h].pb == Some(b)
  {
  }

  lemma AfterPointers(s: Store, f: Frame, rest: seq<Frame>)
    requires Inv(s, [f] + rest) && FrameOk(s, f)
    ensures PointersOk(After(s, f))
    ensures forall b :: b in s.blocks && b !in After(s, f).blocks ==> !s.blocks[b].alive
  {
    var t := After(s, f);
    assert ([f] + rest)[0] == f;
    AfterShrinks(s, f);
    forall b | b in s.blocks && b !in t.blocks
      ensures !s.blocks[b].alive
      ensures forall h :: h in t.handles ==> t.handles[h].pb != Some(b)
    {
      if f.DropHandle? {
        DropKeepsBlock(s, f.h, b, GiveUpShare(b) in [f] + rest);
      } else {
        AfterShareCounts(s, f.b, rest);
      }
      assert forall h :: h in s.handles && s.handles[h].pb == Some(b) ==>
               h in Refs(s, b, true) || h in Refs(s, b, false);
    }
  }

  lemma AddedHas(s: Store, f: Frame, b: Bid)
    requires FrameOk(s, f) && PointersOk(s) && f.DropHandle? && LastStrong(s, f.h) && s.handles[f.h].pb == Some(b)
    ensures forall m :: m in s.blocks[b].members <==> DropHandle(m) in Added(s, f)
    ensures forall c :: GiveUpShare(c) in Added(s, f) <==> c == b
    ensures NoDup(s.blocks[b].members) ==> NoDup(Added(s, f))
  {
    var ms := s.blocks[b].members;
    var ds := Drops(ms);
    assert Added(s, f) == ds + [GiveUpShare(b)];
    forall m | m in ms ensures DropHandle(m) in Added(s, f) {
      var i :| 0 <= i < |ms| && ms[i] == m;
      assert Added(s, f)[|ms| - 1 - i] == DropHandle(m);
    }
    assert Added(s, f)[|ms|] == GiveUpShare(b);
  }

  lemma AfterMembers(s: Store, f: Frame)
    requires PointersOk(s) && MembersOk(s) && FrameOk(s, f)
    ensures MembersOk(After(s, f))
  {
    var t := After(s, f);
    AfterShrinks(s, f);
    forall b | Alive(t, b)
      ensures NoDup(t.blocks[b].members)
      ensures forall m :: m in t.blocks[b].members ==> m in t.handles && t.handles[m].holder == Some(b)
    {
      assert Alive(s, b);
      assert f.DropHandle? ==> f.h !in s.blocks[b].members;
    }
  }

  lemma AfterHolder(s: Store, f: Frame, rest: seq<Frame>, h: Id, b: Bid)
    requires Inv(s, [f] + rest) && FrameOk(s, f)
    requires h in After(s, f).handles && s.handles[h].holder == Some(b)
    ensures if Alive(After(s, f), b) then h in After(s, f).blocks[b].members else DropHandle(h) in Added(s, f) + rest
  {
    AfterShrinks(s, f);
    if Alive(s, b) && !Alive(After(s, f), b) {
      AfterPointers(s, f, rest);
      AfterBlocks(s, f, b);
      AddedHas(s, f, b);
    } else if !Alive(s, b) {
      assert DropHandle(h) in [f] + rest;
      assert DropHandle(h) != f;
    }
  }

  lemma AfterHolders(s: Store, f: Frame, rest: seq<Frame>)
    requires Inv(s, [f] + rest) && FrameOk(s, f)
    ensures HoldersOk(After(s, f), Added(s, f) + rest)
  {
    AfterShrinks(s, f);
    forall h | h in After(s, f).handles && After(s, f).handles[h].holder.Some?
      ensures var b := After(s, f).handles[h].holder.value;
              if Alive(After(s, f), b) then h in After(s, f).blocks[b].members
              else DropHandle(h) in Added(s, f) + rest
    {
      AfterHolder(s, f, rest, h, s.handles[h].holder.value);
    }
  }

  lemma RestFrame(s: Store, f: Frame, g: Frame)
    requires PointersOk(s) && FrameOk(s, f) && FrameOk(s, g) && g != f
    requires g.GiveUpShare? ==> BlockOk(s, g.b, true)
    ensures FrameOk(After(s, f), g)
  {
    AfterShrinks(s, f);
    if g.GiveUpShare? && f.DropHandle? {
      DropKeepsBlock(s, f.h, g.b, true);
    }
  }

  lemma NoDupTail<T>(x: T, rest: seq<T>)
    requires NoDup([x] + rest)
    ensures NoDup(rest) && x !in rest
  {
    var k := [x] + rest;
    assert k[0] == x && forall i :: 0 <= i < |rest| ==> rest[i] == k[i + 1];
  }

  lemma RestFrames(s: Store, f: Frame, rest: seq<Frame>)
    requires Inv(s, [f] + rest) && FrameOk(s, f)
    ensures NoDup(rest) && f !in rest
    ensures forall g :: g in rest ==> FrameOk(s, g) && FrameOk(After(s, f), g)
  {
    NoDupTail(f, rest);
    forall g | g in rest
      ensures FrameOk(s, g) && FrameOk(After(s, f), g)
    {
      PendingFrame(s, [f] + rest, g);
      RestFrame(s, f, g);
    }
  }

  lemma PendingFrame(s: Store, k: seq<Frame>, g: Frame)
    requires Inv(s, k) && g in k
    ensures FrameOk(s, g) && (g.GiveUpShare? ==> BlockOk(s, g.b, true))
  {
    assert g.GiveUpShare? ==> BlockOk(s, g.b, GiveUpShare(g.b) in k);
  }

  lemma NoDupJoin<T>(xs: seq<T>, ys: seq<T>)
    requires NoDup(xs) && NoDup(ys) && forall x :: x in xs ==> x !in ys
    ensures NoDup(xs + ys)
  {
    var zs := xs + ys;
    forall i, j | 0 <= i < j < |zs|
      ensures zs[i] != zs[j]
    {
      if i < |xs| <= j {
        assert zs[i] in xs && zs[j] == ys[j - |xs|];
      }
    }
  }

  lemma AddedFrames(s: Store, f: Frame, rest: seq<Frame>)
    requires Inv(s, [f] + rest) && FrameOk(s, f) && Added(s, f) != []
    ensures NoDup(Added(s, f))
    ensures forall g :: g in Added(s, f) ==> !FrameOk(s, g) && FrameOk(After(s, f), g)
  {
    var t := After(s, f);
    var b := s.handles[f.h].pb.value;
    AddedHas(s, f, b);
    assert BlockOk(s, b, GiveUpShare(b) in [f] + rest);
    assert Alive(s, b) && b in t.blocks && !t.blocks[b].alive;
    forall g | g in Added(s, f)
      ensures !FrameOk(s, g) && FrameOk(t, g)
    {
      if g.DropHandle? {
        assert g.h in s.blocks[b].members && s.handles[g.h].holder == Some(b);
      }
    }
  }

  lemma AfterFrames(s: Store, f: Frame, rest: seq<Frame>)
    requires Inv(s, [f] + rest) && FrameOk(s, f)
    ensures NoDup(Added(s, f) + rest)
    ensures forall g :: g in Added(s, f) + rest ==> FrameOk(After(s, f), g)
  {
    RestFrames(s, f, rest);
    if Added(s, f) == [] {
      assert Added(s, f) + rest == rest;
    } else {
      AddedFrames(s, f, rest);
      NoDupJoin(Added(s, f), rest);
    }
  }

  lemma AfterInv(s: Store, f: Frame, rest: seq<Frame>)
    requires Inv(s, [f] + rest)
    ensures FrameOk(s, f) && Inv(After(s, f), Added(s, f) + rest)
  {
    assert ([f] + rest)[0] == f;
    if f.DropHandle? {
      AfterDropCounts(s, f.h, rest);
    } else {
      AfterShareCounts(s, f.b, rest);
      assert Added(s, f) + rest == rest;
    }
    AfterPointers(s, f, rest);
    AfterHolders(s, f, rest);
    AfterMembers(s, f);
    AfterFrames(s, f, rest);
  }

  /** Run all pending work to the end.  The recursion terminates on every ownership graph:
      each handle is dropped once, and each unit of weak_count given up once. */
  ghost function Cascade(s: Store, k: seq<Frame>): (t: Store)
    requires Inv(s, k)
    ensures Inv(t, []) && Shrinks(s, t)
    decreases |s.handles|, |k|
  {
    if k == [] then s
    else
      assert k == [k[0]] + k[1..];
      AfterInv(s, k[0], k[1..]);
      AfterShrinks(s, k[0]);
      FewerHandles(s, k[0]);
      Cascade(After(s, k[0]), Added(s, k[0]) + k[1..])
  }

  lemma CascadeStep(s: Store, f: Frame, rest: seq<Frame>)
    requires Inv(s, [f] + rest)
    ensures FrameOk(s, f) && Inv(After(s, f), Added(s, f) + rest)
    ensures Cascade(s, [f] + rest) == Cascade(After(s, f), Added(s, f) + rest)
  {
    AfterInv(s, f, rest);
    var k := [f] + rest;
    assert k[0] == f && k[1..] == rest;
  }

  lemma FewerHandles(s: Store, f: Frame)
    requires FrameOk(s, f) && PointersOk(s)
    ensures f.DropHandle? ==> |After(s, f).handles| < |s.handles|
    ensures f.GiveUpShare? ==> After(s, f).handles == s.handles && Added(s, f) == []
  {
    if f.DropHandle? {
      assert After(s, f).handles.Keys == s.handles.Keys - {f.h};
    }
  }

  // ---------- What a cascade spares ----------

  /** Every block of alive has a strong handle that is not about to be dropped: a pending-free
      one outside all objects, or one inside an object owned by a block of alive. */
  ghost predicate Supported(s: Store, k: seq<Frame>, alive: set<Bid>) {
    forall b :: b in alive ==> Alive(s, b) && exists h :: Supports(s, k, alive, b, h)
  }

  predicate Supports(s: Store, k: seq<Frame>, alive: set<Bid>, b: Bid, h: Id) {
    && h in s.handles && s.handles[h].strong && s.handles[h].pb == Some(b)
    && (match s.handles[h].holder case None => DropHandle(h) !in k case Some(a) => a in alive)
  }

  lemma TwoMembers<T>(xs: set<T>, x: T, y: T)
    requires x in xs && y in xs && x != y
    ensures |xs| >= 2
  {
    assert y in xs - {x};
    assert |xs - {x}| == |xs| - 1;
  }

  lemma NotDropped(s: Store, f: Frame, k: seq<Frame>, alive: set<Bid>, b: Bid, h: Id)
    requires f in k && FrameOk(s, f) && Supported(s, k, alive) && Supports(s, k, alive, b, h)
    ensures f != DropHandle(h)
  {
  }

  lemma NotLast(s: Store, g: Id, b: Bid, h: Id)
    requires g in s.handles && h in s.handles && g != h && b in s.blocks && s.blocks[b].use == |Refs(s, b, true)|
    requires s.handles[h].strong && s.handles[h].pb == Some(b)
    ensures !(LastStrong(s, g) && s.handles[g].pb == Some(b))
  {
    if LastStrong(s, g) && s.handles[g].pb == Some(b) {
      TwoMembers(Refs(s, b, true), h, g);
    }
  }

  /** An action that drops another handle than h does not kill the block h owns. */
  lemma OwnerKeeps(s: Store, f: Frame, b: Bid, h: Id)
    requires FrameOk(s, f) && PointersOk(s) && f != DropHandle(h)
    requires Alive(s, b) && s.blocks[b].use == |Refs(s, b, true)| && b in After(s, f).blocks
    requires h in s.handles && s.handles[h].strong && s.handles[h].pb == Some(b)
    ensures Alive(After(s, f), b) && h in After(s, f).handles && After(s, f).handles[h] == s.handles[h]
  {
    AfterBlocks(s, f, b);
    if f.DropHandle? {
      NotLast(s, f.h, b, h);
    }
  }

  lemma StepSpares(s: Store, f: Frame, rest: seq<Frame>, alive: set<Bid>)
    requires Inv(s, [f] + rest) && Supported(s, [f] + rest, alive)
    ensures FrameOk(s, f) && Supported(After(s, f), Added(s, f) + rest, alive)
  {
    var k := [f] + rest;
    assert k[0] == f;
    AfterPointers(s, f, rest);
    if Added(s, f) != [] {
      AddedFrames(s, f, rest);
    }
    forall b | b in alive
      ensures Alive(After(s, f), b) && exists h :: Supports(After(s, f), Added(s, f) + rest, alive, b, h)
    {
      var h :| Supports(s, k, alive, b, h);
      NotDropped(s, f, k, alive, b, h);
      assert BlockOk(s, b, GiveUpShare(b) in k);
      OwnerKeeps(s, f, b, h);
      assert s.handles[h].holder.None? ==> FrameOk(s, DropHandle(h)) && DropHandle(h) !in rest;
      assert Supports(After(s, f), Added(s, f) + rest, alive, b, h);
    }
  }

  lemma {:induction false} CascadeSpares(s: Store, k: seq<Frame>, alive: set<Bid>)
    requires Inv(s, k) && Supported(s, k, alive)
    ensures Supported(Cascade(s, k), [], alive)
    decreases |s.handles|, |k|
  {
    if k != [] {
      assert k == [k[0]] + k[1..];
      StepSpares(s, k[0], k[1..], alive);
      AfterInv(s, k[0], k[1..]);
      FewerHandles(s, k[0]);
      CascadeSpares(After(s, k[0]), Added(s, k[0]) + k[1..], alive);
    }
  }

  // ---------- Which objects survive ----------

  /** Handle g, inside the live object of a, owns b. */
  predicate Link(s: Store, a: Bid, b: Bid, g: Id) {
    g in s.handles && s.handles[g].holder == Some(a) && s.handles[g].strong && s.handles[g].pb == Some(b) && Alive(s, a)
  }

  ghost predicate Edge(s: Store, a: Bid, b: Bid) {
    exists g :: Link(s, a, b, g)
  }

  ghost predicate Path(s: Store, p: seq<Bid>) {
    p != [] && forall i :: 0 < i < |p| ==> Edge(s, p[i - 1], p[i])
  }

  /** Strong handle g outside all objects owns a and is not about to be dropped. */
  predicate Root(s: Store, k: seq<Frame>, g: Id, a: Bid) {
    && g in s.handles && s.handles[g].holder.None? && DropHandle(g) !in k
    && s.handles[g].strong && s.handles[g].pb == Some(a)
  }

  ghost predicate Loop(s: Store, a: Bid, p: seq<Bid>) {
    Path(s, p) && |p| >= 2 && p[0] == a == p[|p| - 1]
  }

  ghost predicate Source(s: Store, k: seq<Frame>, a: Bid) {
    (exists g :: Root(s, k, g, a)) || (exists p :: Loop(s, a, p))
  }

  ghost predicate GroundedBy(s: Store, k: seq<Frame>, b: Bid, p: seq<Bid>) {
    Path(s, p) && Source(s, k, p[0]) && p[|p| - 1] == b
  }

  /** b is strongly reachable from a handle that remains, or from a cycle of strong handles. */
  ghost predicate Grounded(s: Store, k: seq<Frame>, b: Bid) {
    exists p :: GroundedBy(s, k, b, p)
  }

  lemma OwnedIsAlive(s: Store, k: seq<Frame>, g: Id, b: Bid)
    requires Inv(s, k) && g in s.handles && s.handles[g].strong && s.handles[g].pb == Some(b)
    ensures Alive(s, b)
  {
    assert BlockOk(s, b, GiveUpShare(b) in k);
    assert g in Refs(s, b, true);
  }

  lemma AliveIsOwned(s: Store, k: seq<Frame>, b: Bid) returns (g: Id)
    requires Inv(s, k) && Alive(s, b)
    ensures g in s.handles && s.handles[g].strong && s.handles[g].pb == Some(b)
  {
    assert BlockOk(s, b, GiveUpShare(b) in k);
    g :| g in Refs(s, b, true);
  }

  lemma SplitPath(s: Store, q: seq<Bid>) returns (g: Id)
    requires Path(s, q) && |q| >= 2
    ensures Link(s, q[|q| - 2], q[|q| - 1], g) && Path(s, q[..|q| - 1])
  {
    var i := |q| - 1;
    assert Edge(s, q[i - 1], q[i]);
    g :| Link(s, q[i - 1], q[i], g);
  }

  /** A grounded block has a supporting handle, whose holder is grounded as well. */
  lemma GroundedStep(s: Store, k: seq<Frame>, b: Bid) returns (g: Id)
    requires Grounded(s, k, b)
    ensures Root(s, k, g, b) || exists a :: Link(s, a, b, g) && Grounded(s, k, a)
  {
    var p :| GroundedBy(s, k, b, p);
    if exists r :: |p| == 1 && Root(s, k, r, b) {
      g :| Root(s, k, g, b);
    } else {
      var q := p;
      if |p| == 1 {
        q :| Loop(s, b, q);
      }
      g := SplitPath(s, q);
      assert GroundedBy(s, k, q[|q| - 2], q[..|q| - 1]);
    }
  }

  lemma GroundedSupported(s: Store, k: seq<Frame>) returns (grounded: set<Bid>)
    requires Inv(s, k)
    ensures forall b :: b in grounded <==> Grounded(s, k, b)
    ensures Supported(s, k, grounded)
  {
    forall b | Grounded(s, k, b) ensures b in s.blocks {
      var g := GroundedStep(s, k, b);
      OwnedIsAlive(s, k, g, b);
    }
    grounded := set b | b in s.blocks && Grounded(s, k, b);
    forall b | b in grounded
      ensures Alive(s, b) && exists h :: Supports(s, k, grounded, b, h)
    {
      var g := GroundedStep(s, k, b);
      OwnedIsAlive(s, k, g, b);
      assert Supports(s, k, grounded, b, g);
    }
  }

  lemma ExtendBack(s: Store, a: Bid, p: seq<Bid>)
    requires Path(s, p) && Edge(s, a, p[0])
    ensures Path(s, [a] + p)
  {
    var q := [a] + p;
    forall i | 0 < i < |q| ensures Edge(s, q[i - 1], q[i]) {
      assert q[i] == p[i - 1] && (i > 1 ==> q[i - 1] == p[i - 2]);
    }
  }

  lemma ClosedLoop(s: Store, a: Bid, p: seq<Bid>, i: nat)
    requires Path(s, p) && Edge(s, a, p[0]) && i < |p| && p[i] == a
    ensures Grounded(s, [], p[|p| - 1])
  {
    var q := [a] + p;
    ExtendBack(s, a, p);
    assert Path(s, q[..i + 2]) && q[..i + 2][i + 1] == p[i];
    assert Loop(s, a, q[..i + 2]);
    assert Path(s, p[i..]);
    assert GroundedBy(s, [], p[|p| - 1], p[i..]);
  }

  /** Walking back along strong handles from a live block meets a root or closes a cycle. */
  lemma {:induction false} WalkBack(s: Store, p: seq<Bid>)
    requires Inv(s, []) && Path(s, p) && (forall b :: b in p ==> Alive(s, b))
    ensures Grounded(s, [], p[|p| - 1])
    decreases s.blocks.Keys - set b | b in p
  {
    var g := AliveIsOwned(s, [], p[0]);
    if s.handles[g].holder.None? {
      assert Root(s, [], g, p[0]);
      assert GroundedBy(s, [], p[|p| - 1], p);
    } else {
      var a := s.handles[g].holder.value;
      HolderAlive(s, g, a);
      assert Link(s, a, p[0], g);
      if i :| 0 <= i < |p| && p[i] == a {
        ClosedLoop(s, a, p, i);
      } else {
        ExtendBack(s, a, p);
        var q := [a] + p;
        assert a !in p && q[0] == a && a in s.blocks.Keys;
        var unseen := s.blocks.Keys - set b | b in p;
        assert s.blocks.Keys - (set b | b in q) == unseen - {a} && a in unseen;
        WalkBack(s, q);
      }
    }
  }

  lemma HolderAlive(s: Store, g: Id, a: Bid)
    requires Inv(s, []) && g in s.handles && s.handles[g].holder == Some(a)
    ensures Alive(s, a)
  {
  }

  lemma DroppedStep(s: Store, f: Frame, rest: seq<Frame>, h: Id)
    requires Inv(s, [f] + rest) && FrameOk(s, f)
    ensures DropHandle(h) in [f] + rest ==> h !in After(s, f).handles || DropHandle(h) in Added(s, f) + rest
    ensures h in s.handles && s.handles[h].holder.None? && DropHandle(h) !in [f] + rest ==>
              h in After(s, f).handles && After(s, f).handles[h] == s.handles[h] && DropHandle(h) !in Added(s, f) + rest
  {
    InFront(f, rest, DropHandle(h));
    if Added(s, f) != [] && h in s.handles && s.handles[h].holder.None? {
      AddedFrames(s, f, rest);
      assert FrameOk(s, DropHandle(h));
    }
  }

  lemma InFront<T>(x: T, rest: seq<T>, y: T)
    ensures y in [x] + rest <==> y == x || y in rest
  {
    assert ([x] + rest)[0] == x;
  }

  lemma {:induction false} DroppedIsGone(s: Store, k: seq<Frame>, h: Id)
    requires Inv(s, k)
    ensures DropHandle(h) in k ==> h !in Cascade(s, k).handles
    ensures h in s.handles && s.handles[h].holder.None? && DropHandle(h) !in k ==> h in Cascade(s, k).handles
    decreases |s.handles|, |k|
  {
    if k != [] {
      assert k == [k[0]] + k[1..];
      AfterInv(s, k[0], k[1..]);
      FewerHandles(s, k[0]);
      DroppedStep(s, k[0], k[1..], h);
      DroppedIsGone(After(s, k[0]), Added(s, k[0]) + k[1..], h);
    }
  }

  lemma ShrinksPath(s: Store, t: Store, p: seq<Bid>)
    requires Shrinks(s, t) && Path(t, p)
    ensures Path(s, p)
  {
    forall i | 0 < i < |p| ensures Edge(s, p[i - 1], p[i]) {
      var g :| Link(t, p[i - 1], p[i], g);
      assert Link(s, p[i - 1], p[i], g);
    }
  }

  lemma ShrinksGrounded(s: Store, k: seq<Frame>, b: Bid)
    requires Inv(s, k) && Grounded(Cascade(s, k), [], b)
    ensures Grounded(s, k, b)
  {
    var t := Cascade(s, k);
    var p :| GroundedBy(t, [], b, p);
    ShrinksPath(s, t, p);
    assert Source(t, [], p[0]);
    if exists g :: Root(t, [], g, p[0]) {
      var g :| Root(t, [], g, p[0]);
      DroppedIsGone(s, k, g);
      assert Root(s, k, g, p[0]);
    } else {
      var l :| Loop(t, p[0], l);
      ShrinksPath(s, t, l);
      assert Loop(s, p[0], l);
    }
    assert GroundedBy(s, k, b, p);
  }

  /** On every ownership graph, the objects left alive are exactly those that were strongly
      reachable from a remaining handle outside all objects or from a strong cycle. */
  lemma SurvivorsExact(s: Store, k: seq<Frame>, b: Bid)
    requires Inv(s, k)
    ensures Alive(Cascade(s, k), b) <==> Grounded(s, k, b)
  {
    if Grounded(s, k, b) {
      var grounded := GroundedSupported(s, k);
      CascadeSpares(s, k, grounded);
    }
    if Alive(Cascade(s, k), b) {
      WalkBack(Cascade(s, k), [b]);
      ShrinksGrounded(s, k, b);
    }
  }

  ghost predicate Acyclic(s: Store) {
    forall a, p :: !Loop(s, a, p)
  }

  ghost predicate ReachedFromRoot(s: Store, k: seq<Frame>, b: Bid, g: Id, p: seq<Bid>) {
    Path(s, p) && Root(s, k, g, p[0]) && p[|p| - 1] == b
  }

  /** Without strong cycles, a cascade disposes of exactly the live objects that no remaining
      handle outside all objects reaches. */
  lemma DisposedExact(s: Store, k: seq<Frame>, b: Bid)
    requires Inv(s, k) && Acyclic(s) && Alive(s, b)
    ensures !Alive(Cascade(s, k), b) <==> forall g, p :: !ReachedFromRoot(s, k, b, g, p)
  {
    SurvivorsExact(s, k, b);
    if Grounded(s, k, b) {
      var p :| GroundedBy(s, k, b, p);
      var g :| Root(s, k, g, p[0]);
      assert ReachedFromRoot(s, k, b, g, p);
    }
    forall g, p | ReachedFromRoot(s, k, b, g, p) ensures Grounded(s, k, b) {
      assert GroundedBy(s, k, b, p);
    }
  }

  /** A cascade destroys exactly the pending handles and those inside objects it disposes of,
      and frees exactly the control blocks that no handle refers to any more. */
  lemma FreedExact(s: Store, k: seq<Frame>, h: Id, b: Bid)
    requires Inv(s, k)
    ensures h in Cascade(s, k).handles <==>
            h in s.handles && DropHandle(h) !in k
            && (s.handles[h].holder.Some? ==> Alive(Cascade(s, k), s.handles[h].holder.value))
    ensures b in s.blocks ==>
              (b in Cascade(s, k).blocks <==>
               exists g :: g in Cascade(s, k).handles && Cascade(s, k).handles[g].pb == Some(b))
  {
    var t := Cascade(s, k);
    DroppedIsGone(s, k, h);
    if h in s.handles && s.handles[h].holder.Some? && Alive(t, s.handles[h].holder.value) {
      assert h in t.blocks[s.handles[h].holder.value].members;
    }
    if b in t.blocks {
      assert BlockOk(t, b, false);
      var g :| g in Refs(t, b, true) + Refs(t, b, false);
    }
  }
}
