/** The operations of shared_ptr and weak_ptr over the heap of handles and control blocks. */
module SharedHandles {
  import opened Common
  import opened SharedHeap

  // ---------- What each operation does to the store ----------

  /** A new handle dst of the given kind that refers to what src refers to. */
  function CopyOf(s: Store, dst: Id, src: Id, strong: bool): Store
    requires src in s.handles
  {
    var from := s.handles[src];
    Store(s.handles[dst := Handle(strong, from.px, from.pb, None)],
          if from.pb.None? || from.pb.value !in s.blocks then s.blocks
          else
            var blk := s.blocks[from.pb.value];
            s.blocks[from.pb.value := if strong then blk.(use := blk.use + 1) else blk.(weak := blk.weak + 1)])
  }

  /** A new handle dst that takes over what src refers to. */
  function MoveOf(s: Store, dst: Id, src: Id): Store
    requires src in s.handles
  {
    s.(handles := s.handles[dst := s.handles[src].(holder := None)][src := s.handles[src].(px := None, pb := None)])
  }

  function SwapOf(s: Store, a: Id, b: Id): Store
    requires a in s.handles && b in s.handles
  {
    var x, y := s.handles[a], s.handles[b];
    s.(handles := s.handles[a := x.(px := y.px, pb := y.pb)][b := y.(px := x.px, pb := x.pb)])
  }

  /** A new control block b for object p, which contains the given handles, and a first handle h. */
  function AdoptOf(s: Store, h: Id, b: Bid, p: Option<Obj>, members: seq<Id>): Store {
    Store((map m | m in s.handles :: if m in members then s.handles[m].(holder := Some(b)) else s.handles[m])
          [h := Handle(true, p, Some(b), None)],
          s.blocks[b := Block(1, 1, p, members, true)])
  }

  /** p is null, or an object that no block owns, whose handles no owned object contains.  It may lie
      where an object lay whose block a weak handle still keeps. */
  ghost predicate Adoptable(s: Store, p: Option<Obj>, members: seq<Id>) {
    && NoDup(members)
    && (forall m :: m in members ==> m in s.handles && s.handles[m].holder.None?)
    && (p.None? ==> members == [])
    && (p.Some? ==> forall c :: Alive(s, c) ==> s.blocks[c].p != p)
  }

  // ---------- They keep the invariant ----------

  lemma CopyRefs(s: Store, dst: Id, src: Id, strong: bool, b: Bid, kind: bool)
    requires src in s.handles && dst !in s.handles && PointersOk(s)
    ensures Refs(CopyOf(s, dst, src, strong), b, kind)
         == Refs(s, b, kind) + if s.handles[src].pb == Some(b) && strong == kind then {dst} else {}
  {
  }

  lemma CopyBlock(s: Store, dst: Id, src: Id, strong: bool, b: Bid)
    requires src in s.handles && dst !in s.handles && PointersOk(s) && b in s.blocks && BlockOk(s, b, false)
    requires strong && s.handles[src].pb == Some(b) ==> Alive(s, b)
    ensures BlockOk(CopyOf(s, dst, src, strong), b, false)
  {
    CopyRefs(s, dst, src, strong, b, true);
    CopyRefs(s, dst, src, strong, b, false);
    assert dst !in Refs(s, b, true) && dst !in Refs(s, b, false);
  }

  lemma CopyKeeps(s: Store, dst: Id, src: Id, strong: bool, b: Bid)
    requires src in s.handles
    ensures var t := CopyOf(s, dst, src, strong);
            && (b in t.blocks <==> b in s.blocks)
            && (b in s.blocks ==>
                  && t.blocks[b].p == s.blocks[b].p && t.blocks[b].members == s.blocks[b].members
                  && t.blocks[b].alive == s.blocks[b].alive)
  {
  }

  lemma CopyPointers(s: Store, dst: Id, src: Id, strong: bool)
    requires PointersOk(s) && src in s.handles && dst !in s.handles
    ensures PointersOk(CopyOf(s, dst, src, strong))
  {
    forall b ensures b in s.blocks ==> b in CopyOf(s, dst, src, strong).blocks
                                       && CopyOf(s, dst, src, strong).blocks[b].p == s.blocks[b].p {
      CopyKeeps(s, dst, src, strong, b);
    }
  }

  lemma CopyMembers(s: Store, dst: Id, src: Id, strong: bool)
    requires HoldersOk(s, []) && MembersOk(s) && src in s.handles && dst !in s.handles
    ensures HoldersOk(CopyOf(s, dst, src, strong), []) && MembersOk(CopyOf(s, dst, src, strong))
  {
    var t := CopyOf(s, dst, src, strong);
    forall b ensures Alive(t, b) <==> Alive(s, b)
             ensures Alive(s, b) ==> t.blocks[b].members == s.blocks[b].members {
      CopyKeeps(s, dst, src, strong, b);
    }
  }

  lemma CopyInv(s: Store, dst: Id, src: Id, strong: bool)
    requires Inv(s, []) && src in s.handles && dst !in s.handles
    requires strong && s.handles[src].pb.Some? ==> Alive(s, s.handles[src].pb.value)
    ensures Inv(CopyOf(s, dst, src, strong), [])
  {
    CopyPointers(s, dst, src, strong);
    CopyMembers(s, dst, src, strong);
    forall b | b in CopyOf(s, dst, src, strong).blocks
      ensures BlockOk(CopyOf(s, dst, src, strong), b, false)
    {
      assert b in s.blocks && BlockOk(s, b, false);
      CopyBlock(s, dst, src, strong, b);
    }
  }

  /** xs with a and b exchanged. */
  function Exchange(xs: set<Id>, a: Id, b: Id): (ys: set<Id>)
    ensures |ys| == |xs|
    ensures forall x :: x in ys <==> if x == a then b in xs else if x == b then a in xs else x in xs
  {
    if (a in xs) == (b in xs) then xs
    else if a in xs then xs - {a} + {b}
    else xs - {b} + {a}
  }

  lemma SwapHandle(s: Store, a: Id, b: Id, h: Id)
    requires a in s.handles && b in s.handles && s.handles[a].strong == s.handles[b].strong
    ensures h in SwapOf(s, a, b).handles <==> h in s.handles
    ensures h in s.handles ==>
              var from := s.handles[if h == a then b else if h == b then a else h];
              SwapOf(s, a, b).handles[h] == Handle(from.strong, from.px, from.pb, s.handles[h].holder)
  {
  }

  lemma SwapRefs(s: Store, a: Id, b: Id, c: Bid, kind: bool)
    requires a in s.handles && b in s.handles && s.handles[a].strong == s.handles[b].strong
    ensures Refs(SwapOf(s, a, b), c, kind) == Exchange(Refs(s, c, kind), a, b)
  {
    forall h
      ensures h in Refs(SwapOf(s, a, b), c, kind) <==> h in Exchange(Refs(s, c, kind), a, b)
    {
      SwapHandle(s, a, b, h);
    }
  }

  lemma SwapShape(s: Store, a: Id, b: Id)
    requires Inv(s, []) && a in s.handles && b in s.handles && s.handles[a].strong == s.handles[b].strong
    ensures var t := SwapOf(s, a, b); PointersOk(t) && HoldersOk(t, []) && MembersOk(t)
  {
    forall h
      ensures h in SwapOf(s, a, b).handles <==> h in s.handles
      ensures h in s.handles ==> SwapOf(s, a, b).handles[h].holder == s.handles[h].holder
    {
      SwapHandle(s, a, b, h);
    }
  }

  lemma SwapInv(s: Store, a: Id, b: Id)
    requires Inv(s, []) && a in s.handles && b in s.handles && s.handles[a].strong == s.handles[b].strong
    ensures Inv(SwapOf(s, a, b), [])
  {
    SwapShape(s, a, b);
    forall c | c in SwapOf(s, a, b).blocks
      ensures BlockOk(SwapOf(s, a, b), c, false)
    {
      assert BlockOk(s, c, false);
      SwapRefs(s, a, b, c, true);
      SwapRefs(s, a, b, c, false);
    }
  }

  function NullOf(s: Store, dst: Id, strong: bool): Store {
    s.(handles := s.handles[dst := Handle(strong, None, None, None)])
  }

  lemma NullInv(s: Store, dst: Id, strong: bool)
    requires Inv(s, []) && dst !in s.handles
    ensures Inv(NullOf(s, dst, strong), [])
  {
    var t := NullOf(s, dst, strong);
    assert PointersOk(t) && HoldersOk(t, []) && MembersOk(t);
    NullCounts(s, dst, strong);
  }

  lemma NullCounts(s: Store, dst: Id, strong: bool)
    requires CountsOk(s, []) && dst !in s.handles
    ensures CountsOk(NullOf(s, dst, strong), [])
  {
    var t := NullOf(s, dst, strong);
    forall b | b in t.blocks
      ensures BlockOk(t, b, false)
    {
      assert BlockOk(s, b, false);
      assert Refs(t, b, true) == Refs(s, b, true) && Refs(t, b, false) == Refs(s, b, false);
    }
  }

  lemma MoveInv(s: Store, dst: Id, src: Id)
    requires Inv(s, []) && src in s.handles && dst !in s.handles
    ensures Inv(MoveOf(s, dst, src), [])
  {
    NullInv(s, dst, s.handles[src].strong);
    SwapInv(NullOf(s, dst, s.handles[src].strong), dst, src);
    MoveIsSwap(s, dst, src);
  }

  /** Moving from a handle is swapping with a null handle. */
  lemma MoveIsSwap(s: Store, dst: Id, src: Id)
    requires src in s.handles && dst !in s.handles
    ensures MoveOf(s, dst, src) == SwapOf(NullOf(s, dst, s.handles[src].strong), dst, src)
  {
  }

  lemma AdoptHandle(s: Store, h: Id, b: Bid, p: Option<Obj>, members: seq<Id>, g: Id)
    requires h !in s.handles && h !in members
    ensures var t := AdoptOf(s, h, b, p, members);
            && (g in t.handles <==> g in s.handles || g == h)
            && (g in s.handles ==> t.handles[g] == if g in members then s.handles[g].(holder := Some(b)) else s.handles[g])
  {
  }

  lemma AdoptPointers(s: Store, h: Id, b: Bid, p: Option<Obj>, members: seq<Id>)
    requires PointersOk(s) && h !in s.handles && h !in members && b !in s.blocks
    ensures PointersOk(AdoptOf(s, h, b, p, members))
  {
    var t := AdoptOf(s, h, b, p, members);
    forall g | g in t.handles
      ensures g != h ==> g in s.handles && t.handles[g].pb == s.handles[g].pb && t.handles[g].px == s.handles[g].px
    {
      AdoptHandle(s, h, b, p, members, g);
    }
  }

  lemma AdoptHolders(s: Store, h: Id, b: Bid, p: Option<Obj>, members: seq<Id>)
    requires HoldersOk(s, []) && h !in s.handles && h !in members && b !in s.blocks
    ensures HoldersOk(AdoptOf(s, h, b, p, members), [])
  {
    var t := AdoptOf(s, h, b, p, members);
    forall g | g in t.handles && t.handles[g].holder.Some?
      ensures Alive(t, t.handles[g].holder.value) && g in t.blocks[t.handles[g].holder.value].members
    {
      AdoptHandle(s, h, b, p, members, g);
    }
  }

  lemma AdoptMembers(s: Store, h: Id, b: Bid, p: Option<Obj>, members: seq<Id>)
    requires MembersOk(s) && h !in s.handles && b !in s.blocks && Adoptable(s, p, members)
    ensures MembersOk(AdoptOf(s, h, b, p, members))
  {
    var t := AdoptOf(s, h, b, p, members);
    forall c, m | Alive(t, c) && m in t.blocks[c].members
      ensures m in t.handles && t.handles[m].holder == Some(c)
    {
      assert c != b ==> Alive(s, c);
      AdoptHandle(s, h, b, p, members, m);
    }
    forall c | Alive(t, c)
      ensures NoDup(t.blocks[c].members)
    {
      assert c != b ==> Alive(s, c);
    }
  }

  lemma AdoptRefs(s: Store, h: Id, b: Bid, p: Option<Obj>, members: seq<Id>, c: Bid, strong: bool)
    requires PointersOk(s) && h !in s.handles && b !in s.blocks
    ensures Refs(AdoptOf(s, h, b, p, members), c, strong)
         == if c != b then Refs(s, c, strong) else if strong then {h} else {}
  {
  }

  lemma AdoptCounts(s: Store, h: Id, b: Bid, p: Option<Obj>, members: seq<Id>)
    requires PointersOk(s) && CountsOk(s, []) && h !in s.handles && b !in s.blocks
    ensures CountsOk(AdoptOf(s, h, b, p, members), [])
  {
    var t := AdoptOf(s, h, b, p, members);
    forall c | c in t.blocks
      ensures BlockOk(t, c, false)
    {
      AdoptRefs(s, h, b, p, members, c, true);
      AdoptRefs(s, h, b, p, members, c, false);
      assert c != b ==> BlockOk(s, c, false) && t.blocks[c] == s.blocks[c];
    }
  }

  lemma AdoptInv(s: Store, h: Id, b: Bid, p: Option<Obj>, members: seq<Id>)
    requires Inv(s, []) && h !in s.handles && b !in s.blocks && Adoptable(s, p, members)
    ensures Inv(AdoptOf(s, h, b, p, members), [])
  {
    AdoptPointers(s, h, b, p, members);
    AdoptHolders(s, h, b, p, members);
    AdoptMembers(s, h, b, p, members);
    AdoptCounts(s, h, b, p, members);
  }

  // ---------- One destructor action at a time ----------

  lemma LastMember(members: seq<Id>, k: seq<Frame>)
    ensures members == [] ==> Drops(members) + k == k
    ensures members != [] ==>
              var n := |members| - 1;
              Drops(members) + k == [DropHandle(members[n])] + (Drops(members[..n]) + k)
  {
  }

  /** The store after one strong handle of b is dropped, but for the deleter. */
  function DropStrong(s: Store, h: Id, b: Bid): Store
    requires b in s.blocks
  {
    Store(s.handles - {h}, s.blocks[b := s.blocks[b].(use := s.blocks[b].use - 1)])
  }

  function Die(s: Store, b: Bid): Store
    requires b in s.blocks
  {
    s.(blocks := s.blocks[b := s.blocks[b].(alive := false)])
  }

  lemma DropStrongAfter(s: Store, h: Id, b: Bid)
    requires h in s.handles && s.handles[h].strong && s.handles[h].pb == Some(b) && PointersOk(s)
    requires FrameOk(s, DropHandle(h)) && s.blocks[b].alive
    ensures After(s, DropHandle(h)) == if s.blocks[b].use == 1 then Die(DropStrong(s, h, b), b) else DropStrong(s, h, b)
    ensures Added(s, DropHandle(h)) == if s.blocks[b].use == 1 then Drops(s.blocks[b].members) + [GiveUpShare(b)] else []
  {
  }

  /** The pending work once a strong handle of b is dropped. */
  function StrongWork(s: Store, b: Bid, k: seq<Frame>): seq<Frame>
    requires b in s.blocks
  {
    if s.blocks[b].use == 1 then Drops(s.blocks[b].members) + ([GiveUpShare(b)] + k) else k
  }

  lemma DropStrongWork(s: Store, h: Id, b: Bid, k: seq<Frame>)
    requires h in s.handles && s.handles[h].strong && s.handles[h].pb == Some(b) && PointersOk(s)
    requires FrameOk(s, DropHandle(h)) && s.blocks[b].alive
    ensures Added(s, DropHandle(h)) + k == StrongWork(s, b, k)
  {
    DropStrongAfter(s, h, b);
    if s.blocks[b].use == 1 {
      var ds := Drops(s.blocks[b].members);
      assert ds + [GiveUpShare(b)] + k == ds + ([GiveUpShare(b)] + k);
    }
  }

  lemma DropStrongStep(s: Store, h: Id, b: Bid, k: seq<Frame>)
    requires Inv(s, [DropHandle(h)] + k) && h in s.handles && s.handles[h].strong && s.handles[h].pb == Some(b)
    ensures b in s.blocks
    ensures var t := if s.blocks[b].use == 1 then Die(DropStrong(s, h, b), b) else DropStrong(s, h, b);
            Inv(t, StrongWork(s, b, k)) && Cascade(s, [DropHandle(h)] + k) == Cascade(t, StrongWork(s, b, k))
  {
    CascadeStep(s, DropHandle(h), k);
    OwnedIsAlive(s, [DropHandle(h)] + k, h, b);
    DropStrongAfter(s, h, b);
    DropStrongWork(s, h, b, k);
  }

  lemma ShareStep(s: Store, b: Bid, k: seq<Frame>)
    requires Inv(s, [GiveUpShare(b)] + k)
    ensures b in s.blocks && Inv(DecWeak(s, b), k) && Cascade(s, [GiveUpShare(b)] + k) == Cascade(DecWeak(s, b), k)
  {
    CascadeStep(s, GiveUpShare(b), k);
    assert [] + k == k;
  }

  // ---------- Sound stores ----------

  /** The invariant with no work pending.  Behind the quantifier it stays folded until
      SoundInv asks for it, which keeps the proofs below small. */
  ghost predicate Sound(s: Store) {
    forall x :: Looked(x) ==> Inv(s, [])
  }

  lemma SoundInv(s: Store)
    requires Sound(s)
    ensures Inv(s, [])
  {
    assert Looked(0);
  }

  lemma SoundCopy(s: Store, dst: Id, src: Id, strong: bool)
    requires Sound(s) && src in s.handles && dst !in s.handles && (strong ==> s.handles[src].strong)
    ensures Sound(CopyOf(s, dst, src, strong))
  {
    SoundInv(s);
    if strong && s.handles[src].pb.Some? {
      OwnedIsAlive(s, [], src, s.handles[src].pb.value);
    }
    CopyInv(s, dst, src, strong);
  }

  lemma SoundSwap(s: Store, a: Id, b: Id)
    requires Sound(s) && a in s.handles && b in s.handles && s.handles[a].strong == s.handles[b].strong
    ensures Sound(SwapOf(s, a, b))
  {
    SoundInv(s);
    SwapInv(s, a, b);
  }

  lemma SoundNull(s: Store, dst: Id, strong: bool)
    requires Sound(s) && dst !in s.handles
    ensures Sound(NullOf(s, dst, strong))
  {
    SoundInv(s);
    NullInv(s, dst, strong);
  }

  lemma SoundMove(s: Store, dst: Id, src: Id)
    requires Sound(s) && src in s.handles && dst !in s.handles
    ensures Sound(MoveOf(s, dst, src))
  {
    SoundInv(s);
    MoveInv(s, dst, src);
  }

  lemma SoundAdopt(s: Store, h: Id, b: Bid, p: Option<Obj>, members: seq<Id>)
    requires Sound(s) && h !in s.handles && b !in s.blocks && Adoptable(s, p, members)
    ensures Sound(AdoptOf(s, h, b, p, members))
  {
    SoundInv(s);
    AdoptInv(s, h, b, p, members);
  }

  lemma SoundOwner(s: Store, g: Id, b: Bid)
    requires Sound(s) && g in s.handles && s.handles[g].strong && s.handles[g].pb == Some(b)
    ensures Alive(s, b)
  {
    SoundInv(s);
    OwnedIsAlive(s, [], g, b);
  }

  lemma RootPending(s: Store, h: Id)
    requires Sound(s) && h in s.handles && s.handles[h].holder.None?
    ensures Inv(s, [DropHandle(h)]) && [DropHandle(h)] + [] == [DropHandle(h)]
  {
    SoundInv(s);
    assert forall b :: b in s.blocks ==> BlockOk(s, b, false);
  }

  lemma MembersPending(s: Store, p: Option<Obj>, members: seq<Id>)
    requires Sound(s) && Adoptable(s, p, members)
    ensures Inv(s, Drops(members)) && Drops(members) + [] == Drops(members)
  {
    SoundInv(s);
    assert forall b :: b in s.blocks ==> BlockOk(s, b, false);
    assert forall f :: f in Drops(members) ==> f.DropHandle? && f.h in members;
  }

  // ---------- Death of a handle, copy and swap ----------

  /** The store after h, outside all objects, has died. */
  ghost function DropOf(s: Store, h: Id): (t: Store)
    requires Sound(s) && h in s.handles && s.handles[h].holder.None?
    ensures Sound(t) && Shrinks(s, t)
  {
    RootPending(s, h);
    Cascade(s, [DropHandle(h)])
  }

  /** The store after an object that no block owns was deleted. */
  ghost function DeleteOf(s: Store, p: Option<Obj>, members: seq<Id>): (t: Store)
    requires Sound(s) && Adoptable(s, p, members)
    ensures Sound(t) && Shrinks(s, t)
  {
    MembersPending(s, p, members);
    Cascade(s, Drops(members))
  }

  /** The store after dst was swapped with local t, which then died. */
  ghost function SwapOutOf(s: Store, dst: Id, t: Id): (u: Store)
    requires Sound(s) && dst in s.handles && t in s.handles && dst != t && s.handles[t].holder.None?
    requires s.handles[dst].strong == s.handles[t].strong
    ensures Sound(u)
  {
    SoundSwap(s, dst, t);
    DropOf(SwapOf(s, dst, t), t)
  }

  /** The store after dst was assigned a copy of src, through local t. */
  ghost function AssignOf(s: Store, dst: Id, src: Id, t: Id): (u: Store)
    requires Sound(s) && dst in s.handles && src in s.handles && t !in s.handles
    requires s.handles[dst].strong ==> s.handles[src].strong
    ensures Sound(u)
  {
    SoundCopy(s, t, src, s.handles[dst].strong);
    SwapOutOf(CopyOf(s, t, src, s.handles[dst].strong), dst, t)
  }

  /** The store after dst was assigned what src referred to, leaving src null, through local t. */
  ghost function MoveAssignOf(s: Store, dst: Id, src: Id, t: Id): (u: Store)
    requires Sound(s) && dst in s.handles && src in s.handles && t !in s.handles
    requires s.handles[dst].strong == s.handles[src].strong
    ensures Sound(u)
  {
    SoundMove(s, t, src);
    SwapOutOf(MoveOf(s, t, src), dst, t)
  }

  /** After dst has taken over what from referred to, turning s into t: dst refers to it, and it is
      alive if dst is strong; every other handle outside all objects, but for gone, is as it was.
      (dst can only be missing when the object that contains it was disposed of.) */
  ghost predicate Replaced(s: Store, t: Store, dst: Id, from: Handle, gone: Id)
    requires dst in s.handles
  {
    && (dst in t.handles ==>
          && t.handles[dst] == s.handles[dst].(px := from.px, pb := from.pb)
          && (from.pb.Some? && s.handles[dst].strong ==> Alive(t, from.pb.value)))
    && (s.handles[dst].holder.None? ==> dst in t.handles)
    && (forall h :: h in s.handles && h != dst && h != gone && s.handles[h].holder.None? ==>
                      h in t.handles && t.handles[h] == s.handles[h])
  }

  lemma DropSparesRoots(s: Store, t: Id, h: Id)
    requires Sound(s) && t in s.handles && s.handles[t].holder.None?
    requires h in s.handles && h != t && s.handles[h].holder.None?
    ensures h in DropOf(s, t).handles && DropOf(s, t).handles[h] == s.handles[h]
  {
    RootPending(s, t);
    DroppedIsGone(s, [DropHandle(t)], h);
  }

  lemma SwapOutReplaces(s: Store, dst: Id, t: Id)
    requires Sound(s) && dst in s.handles && t in s.handles && dst != t && s.handles[t].holder.None?
    requires s.handles[dst].strong == s.handles[t].strong
    ensures Replaced(s, SwapOutOf(s, dst, t), dst, s.handles[t], t)
    ensures Shrinks(SwapOf(s, dst, t), SwapOutOf(s, dst, t))
  {
    var u := SwapOf(s, dst, t);
    SoundSwap(s, dst, t);
    var v := DropOf(u, t);
    forall h | h in s.handles && h != t && s.handles[h].holder.None?
      ensures h in v.handles && v.handles[h] == u.handles[h]
    {
      DropSparesRoots(u, t, h);
    }
    if dst in v.handles && s.handles[dst].strong && s.handles[t].pb.Some? {
      SoundOwner(v, dst, s.handles[t].pb.value);
    }
  }

  lemma AssignReplaces(s: Store, dst: Id, src: Id, t: Id)
    requires Sound(s) && dst in s.handles && src in s.handles && t !in s.handles
    requires s.handles[dst].strong ==> s.handles[src].strong
    ensures Replaced(s, AssignOf(s, dst, src, t), dst, s.handles[src], t)
  {
    SoundCopy(s, t, src, s.handles[dst].strong);
    SwapOutReplaces(CopyOf(s, t, src, s.handles[dst].strong), dst, t);
  }

  lemma MoveAssignReplaces(s: Store, dst: Id, src: Id, t: Id)
    requires Sound(s) && dst in s.handles && src in s.handles && t !in s.handles && dst != src
    requires s.handles[dst].strong == s.handles[src].strong
    ensures Replaced(s, MoveAssignOf(s, dst, src, t), dst, s.handles[src], src)
    ensures src in MoveAssignOf(s, dst, src, t).handles ==> MoveAssignOf(s, dst, src, t).handles[src].pb.None?
  {
    SoundMove(s, t, src);
    SwapOutReplaces(MoveOf(s, t, src), dst, t);
  }

  lemma DropStep(s: Store, t: Id)
    requires Sound(s) && t in s.handles && s.handles[t].holder.None?
    ensures FrameOk(s, DropHandle(t)) && PointersOk(s)
    ensures Added(s, DropHandle(t)) == [] ==> DropOf(s, t) == After(s, DropHandle(t))
  {
    RootPending(s, t);
    CascadeStep(s, DropHandle(t), []);
    if Added(s, DropHandle(t)) == [] {
      assert Added(s, DropHandle(t)) + [] == [];
    }
  }

  lemma DropUndoesCopy(s: Store, src: Id, t: Id)
    requires src in s.handles && t !in s.handles
    requires match s.handles[src].pb
             case None => true
             case Some(b) => b in s.blocks && s.blocks[b].weak > 0
                             && (s.handles[src].strong ==> s.blocks[b].alive && s.blocks[b].use > 0)
    requires var u := CopyOf(s, t, src, s.handles[src].strong); PointersOk(u) && FrameOk(u, DropHandle(t))
    ensures var u := CopyOf(s, t, src, s.handles[src].strong);
            After(u, DropHandle(t)) == s && Added(u, DropHandle(t)) == []
  {
    var u := CopyOf(s, t, src, s.handles[src].strong);
    assert u.handles - {t} == s.handles;
    assert After(u, DropHandle(t)).blocks == s.blocks;
  }

  lemma DropCopy(s: Store, src: Id, t: Id)
    requires Sound(s) && src in s.handles && t !in s.handles && Sound(CopyOf(s, t, src, s.handles[src].strong))
    ensures DropOf(CopyOf(s, t, src, s.handles[src].strong), t) == s
  {
    DropStep(CopyOf(s, t, src, s.handles[src].strong), t);
    if s.handles[src].pb.Some? {
      SoundReferred(s, src, s.handles[src].pb.value);
    }
    DropUndoesCopy(s, src, t);
  }

  lemma SoundReferred(s: Store, h: Id, b: Bid)
    requires Sound(s) && h in s.handles && s.handles[h].pb == Some(b)
    ensures b in s.blocks && s.blocks[b].weak > 0
    ensures s.handles[h].strong ==> s.blocks[b].alive && s.blocks[b].use > 0
  {
    SoundInv(s);
    assert BlockOk(s, b, false);
    if s.handles[h].strong {
      SoundOwner(s, h, b);
    }
  }

  /** Assigning a handle to itself changes nothing, whatever it owns. */
  lemma SelfAssign(s: Store, h: Id, t: Id)
    requires Sound(s) && h in s.handles && t !in s.handles
    ensures AssignOf(s, h, h, t) == s
  {
    SoundCopy(s, t, h, s.handles[h].strong);
    var u := CopyOf(s, t, h, s.handles[h].strong);
    assert SwapOf(u, h, t).handles == u.handles;
    DropCopy(s, h, t);
  }

  /** Moving a handle to itself changes nothing. */
  lemma SelfMove(s: Store, h: Id, t: Id)
    requires Sound(s) && h in s.handles && t !in s.handles
    ensures MoveAssignOf(s, h, h, t) == s
  {
    SoundMove(s, t, h);
    var u := SwapOf(MoveOf(s, t, h), h, t);
    SoundSwap(MoveOf(s, t, h), h, t);
    DropStep(u, t);
    assert u.handles - {t} == s.handles;
  }

  lemma SoundLock(s: Store, dst: Id, w: Id)
    requires Sound(s) && w in s.handles && dst !in s.handles
    requires s.handles[w].pb.Some? && Alive(s, s.handles[w].pb.value)
    ensures Sound(CopyOf(s, dst, w, true))
  {
    SoundInv(s);
    CopyInv(s, dst, w, true);
  }

  /** The object of a block is alive exactly while its use_count is not zero. */
  lemma AliveIsUsed(s: Store, b: Bid)
    requires Sound(s) && b in s.blocks
    ensures s.blocks[b].alive <==> s.blocks[b].use != 0
    ensures s.blocks[b].use == |Refs(s, b, true)|
    ensures s.blocks[b].weak == |Refs(s, b, false)| + if s.blocks[b].alive then 1 else 0
  {
    SoundInv(s);
    assert BlockOk(s, b, false);
  }

  /** A handle that was given a new block by reset is its only owner. */
  lemma ResetOwnsAlone(s: Store, dst: Id, t: Id, b: Bid, p: Option<Obj>, members: seq<Id>)
    requires Sound(s) && dst in s.handles && s.handles[dst].strong && t !in s.handles
    requires b !in s.blocks && Adoptable(s, p, members)
    ensures Sound(AdoptOf(s, t, b, p, members))
    ensures var u := SwapOutOf(AdoptOf(s, t, b, p, members), dst, t);
            dst in u.handles ==> b in u.blocks && u.blocks[b].use == 1 && u.handles[dst].px == p
  {
    SoundAdopt(s, t, b, p, members);
    var a := AdoptOf(s, t, b, p, members);
    SwapOutReplaces(a, dst, t);
    var u := SwapOutOf(a, dst, t);
    if dst in u.handles {
      AliveIsUsed(u, b);
      NewBlockIsUnknown(s, t, b, p, members);
      OnlyReferrer(a, u, dst, t, b);
    }
  }

  lemma OnlyReferrer(a: Store, u: Store, dst: Id, t: Id, b: Bid)
    requires dst in a.handles && t in a.handles && dst != t && a.handles[dst].strong && Shrinks(SwapOf(a, dst, t), u)
    requires forall g :: g in a.handles && g != t ==> a.handles[g].pb != Some(b)
    requires dst in u.handles && u.handles[dst].pb == Some(b)
    ensures Refs(u, b, true) == {dst}
  {
  }

  lemma NewBlockIsUnknown(s: Store, t: Id, b: Bid, p: Option<Obj>, members: seq<Id>)
    requires Sound(s) && t !in s.handles && b !in s.blocks && Adoptable(s, p, members)
    ensures forall g :: g in AdoptOf(s, t, b, p, members).handles && g != t ==>
                          AdoptOf(s, t, b, p, members).handles[g].pb != Some(b)
  {
    SoundInv(s);
  }

  // ---------- What dropping a handle destroys ----------

  /** When a handle outside all objects dies, the objects that stay alive are those that another
      such handle strongly reaches, or a strong cycle does. */
  lemma DropSurvivors(s: Store, h: Id, b: Bid)
    requires Sound(s) && h in s.handles && s.handles[h].holder.None?
    ensures Alive(DropOf(s, h), b) <==> Grounded(s, [DropHandle(h)], b)
  {
    RootPending(s, h);
    SurvivorsExact(s, [DropHandle(h)], b);
  }

  /** Without strong cycles it disposes of exactly the objects that no other handle outside all
      objects reaches; it destroys, besides itself, exactly the handles inside those; and it frees
      exactly the control blocks that no remaining handle refers to. */
  lemma DropExact(s: Store, h: Id, b: Bid, g: Id)
    requires Sound(s) && h in s.handles && s.handles[h].holder.None? && Acyclic(s)
    ensures Alive(s, b) ==>
              (!Alive(DropOf(s, h), b) <==> forall r, p :: !ReachedFromRoot(s, [DropHandle(h)], b, r, p))
    ensures g in DropOf(s, h).handles <==>
            g in s.handles && g != h
            && (s.handles[g].holder.Some? ==> Alive(DropOf(s, h), s.handles[g].holder.value))
    ensures b in s.blocks ==>
              (b in DropOf(s, h).blocks <==>
               exists r :: r in DropOf(s, h).handles && DropOf(s, h).handles[r].pb == Some(b))
  {
    RootPending(s, h);
    if Alive(s, b) {
      DisposedExact(s, [DropHandle(h)], b);
    }
    FreedExact(s, [DropHandle(h)], g, b);
  }

  lemma DropsHas(members: seq<Id>, h: Id)
    ensures DropHandle(h) in Drops(members) <==> h in members
  {
    if i :| 0 <= i < |members| && members[i] == h {
      assert Drops(members)[|members| - 1 - i] == DropHandle(h);
    }
  }

  /** Deleting an object that no block owns destroys exactly the handles inside it and inside the
      objects it disposes of; these are the ones that no remaining handle outside all objects and no
      strong cycle reaches; and exactly the control blocks that no remaining handle refers to go. */
  lemma DeleteExact(s: Store, p: Option<Obj>, members: seq<Id>, b: Bid, g: Id)
    requires Sound(s) && Adoptable(s, p, members)
    ensures var t := DeleteOf(s, p, members);
            && (g in t.handles <==>
                  g in s.handles && g !in members && (s.handles[g].holder.Some? ==> Alive(t, s.handles[g].holder.value)))
            && (Alive(t, b) <==> Grounded(s, Drops(members), b))
            && (Alive(s, b) && Acyclic(s) ==>
                  (!Alive(t, b) <==> forall r, q :: !ReachedFromRoot(s, Drops(members), b, r, q)))
            && (b in s.blocks ==> (b in t.blocks <==> exists r :: r in t.handles && t.handles[r].pb == Some(b)))
  {
    MembersPending(s, p, members);
    DropsHas(members, g);
    SurvivorsExact(s, Drops(members), b);
    FreedExact(s, Drops(members), g, b);
    if Alive(s, b) && Acyclic(s) {
      DisposedExact(s, Drops(members), b);
    }
  }

  /** A new block owns the object and, through it, the handles inside; nothing else changes. */
  lemma AdoptOwns(s: Store, h: Id, b: Bid, p: Option<Obj>, members: seq<Id>, g: Id)
    requires Sound(s) && h !in s.handles && b !in s.blocks && Adoptable(s, p, members)
    ensures var t := AdoptOf(s, h, b, p, members);
            && Alive(t, b) && t.blocks[b].p == p && t.blocks[b].use == 1 && t.blocks[b].members == members
            && t.blocks - {b} == s.blocks
            && t.handles[h].pb == Some(b) && t.handles[h].px == p && t.handles[h].strong && t.handles[h].holder.None?
            && (g in s.handles ==> g in t.handles && t.handles[g].pb == s.handles[g].pb)
            && (g in members ==> t.handles[g].holder == Some(b))
            && (g in s.handles && g !in members ==> t.handles[g] == s.handles[g])
  {
    assert (s.blocks[b := Block(1, 1, p, members, true)]) - {b} == s.blocks;
    AdoptHandle(s, h, b, p, members, g);
  }

  lemma NothingRefers(a: Store, h: Id, b: Bid)
    requires Sound(a) && h in a.handles && a.handles[h].holder.None?
    requires forall g :: g in a.handles && g != h ==> a.handles[g].pb != Some(b)
    requires b in a.blocks
    ensures b !in DropOf(a, h).blocks
  {
    RootPending(a, h);
    FreedExact(a, [DropHandle(h)], h, b);
  }

  /** When the first handle dies before it was ever copied, the object goes with all it contains, and
      so does the control block. */
  lemma AdoptThenDrop(s: Store, h: Id, b: Bid, p: Option<Obj>, members: seq<Id>, m: Id)
    requires Sound(s) && h !in s.handles && b !in s.blocks && Adoptable(s, p, members)
    ensures Sound(AdoptOf(s, h, b, p, members)) && AdoptOf(s, h, b, p, members).handles[h].holder.None?
    ensures var t := DropOf(AdoptOf(s, h, b, p, members), h);
            (m in members ==> m !in t.handles) && b !in t.blocks && h !in t.handles
  {
    SoundAdopt(s, h, b, p, members);
    AdoptOwns(s, h, b, p, members, m);
    NewBlockIsUnknown(s, h, b, p, members);
    var a := AdoptOf(s, h, b, p, members);
    NothingRefers(a, h, b);
    RootPending(a, h);
    FreedExact(a, [DropHandle(h)], m, b);
    FreedExact(a, [DropHandle(h)], h, b);
  }

  /** Two objects that own each other, and a handle to the first. */
  function TwoCycle(): Store {
    Store(map[0 := Handle(true, Some(10), Some(20), None),
              1 := Handle(true, Some(11), Some(21), Some(20)),
              2 := Handle(true, Some(10), Some(20), Some(21))],
          map[20 := Block(2, 1, Some(10), [1], true), 21 := Block(1, 1, Some(11), [2], true)])
  }

  lemma TwoCycleCounts()
    ensures CountsOk(TwoCycle(), [])
  {
    var s := TwoCycle();
    assert Refs(s, 20, true) == {0, 2} && Refs(s, 21, true) == {1};
    assert Refs(s, 20, false) == {} && Refs(s, 21, false) == {};
  }

  lemma TwoCycleHolders()
    ensures HoldersOk(TwoCycle(), []) && MembersOk(TwoCycle())
  {
  }

  lemma TwoCyclePointers()
    ensures PointersOk(TwoCycle())
  {
  }

  lemma SoundFrom(s: Store)
    requires PointersOk(s) && CountsOk(s, []) && HoldersOk(s, []) && MembersOk(s)
    ensures Sound(s)
  {
  }

  lemma TwoCycleSound()
    ensures Sound(TwoCycle())
  {
    TwoCyclePointers();
    TwoCycleCounts();
    TwoCycleHolders();
    SoundFrom(TwoCycle());
  }

  /** Acyclicity is needed: after the only outside handle dies, both objects leak. */
  lemma CycleLeaks()
    ensures Sound(TwoCycle()) && Alive(DropOf(TwoCycle(), 0), 20) && Alive(DropOf(TwoCycle(), 0), 21)
  {
    TwoCycleSound();
    var s, k := TwoCycle(), [DropHandle(0)];
    assert Link(s, 20, 21, 1) && Link(s, 21, 20, 2);
    assert Loop(s, 20, [20, 21, 20]) && Loop(s, 21, [21, 20, 21]);
    assert GroundedBy(s, k, 20, [20]) && GroundedBy(s, k, 21, [21]);
    DropSurvivors(s, 0, 20);
    DropSurvivors(s, 0, 21);
  }

  /** All handles and control blocks of a program.  The ghost parameters k are the destructor
      work still pending in the callers. */
  class Heap {
    var handles: map<Id, Handle>
    var blocks: map<Bid, Block>

    ghost function View(): Store
      reads this
    {
      Store(handles, blocks)
    }

    ghost predicate Valid()
      reads this
    {
      Sound(View())
    }

    constructor ()
      ensures Valid() && handles == map[] && blocks == map[]
    {
      handles, blocks := map[], map[];
    }

    // ---------- control_block_base ----------

    method IncUseCount(b: Bid)
      requires b in blocks
      modifies this`blocks
      ensures blocks == old(blocks)[b := old(blocks)[b].(use := old(blocks)[b].use + 1)]
    {
      blocks := blocks[b := blocks[b].(use := blocks[b].use + 1)];
    }

    method IncWeakCount(b: Bid)
      requires b in blocks
      modifies this`blocks
      ensures blocks == old(blocks)[b := old(blocks)[b].(weak := old(blocks)[b].weak + 1)]
    {
      blocks := blocks[b := blocks[b].(weak := blocks[b].weak + 1)];
    }

    method DecWeakCount(b: Bid)
      requires b in blocks
      modifies this`blocks
      ensures View() == DecWeak(old(View()), b)
    {
      var n := blocks[b].weak;
      if n == 1 {
        blocks := blocks - {b};   // destroy
      } else {
        blocks := blocks[b := blocks[b].(weak := n - 1)];
      }
    }

    /** Called by the destructor of h, which began in store s. */
    method DecUseCount(b: Bid, ghost s: Store, ghost h: Id, ghost k: seq<Frame>)
      requires Inv(s, [DropHandle(h)] + k) && h in s.handles && s.handles[h].strong && s.handles[h].pb == Some(b)
      requires View() == s.(handles := s.handles - {h})
      modifies this
      ensures Inv(View(), k) && Cascade(s, [DropHandle(h)] + k) == Cascade(View(), k)
      ensures |handles| <= old(|handles|)
      decreases |handles|, 3
    {
      DropStrongStep(s, h, b, k);
      var n := blocks[b].use;
      blocks := blocks[b := blocks[b].(use := n - 1)];
      assert View() == DropStrong(s, h, b);
      if n == 1 {
        Dispose(b, [GiveUpShare(b)] + k);
        ShareStep(View(), b, k);
        DecWeakCount(b);
      }
    }

    /** delete p. */
    method Dispose(b: Bid, ghost k: seq<Frame>)
      requires b in blocks
      requires Inv(Die(View(), b), Drops(blocks[b].members) + k)
      modifies this
      ensures Inv(View(), k)
      ensures Cascade(old(Die(View(), b)), Drops(old(blocks[b].members)) + k) == Cascade(View(), k)
      ensures |handles| <= old(|handles|)
      decreases |handles|, 2
    {
      blocks := blocks[b := blocks[b].(alive := false)];
      DestroyMembers(blocks[b].members, k);
    }

    /** The destructors of an object's members, last declared first. */
    method DestroyMembers(members: seq<Id>, ghost k: seq<Frame>)
      requires Inv(View(), Drops(members) + k)
      modifies this
      ensures Inv(View(), k) && Cascade(old(View()), Drops(members) + k) == Cascade(View(), k)
      ensures |handles| <= old(|handles|)
      decreases |handles|, 1
    {
      LastMember(members, k);
      if members != [] {
        var n := |members| - 1;
        Destroy(members[n], Drops(members[..n]) + k);
        DestroyMembers(members[..n], k);
      }
    }

    /** The destructor of shared_ptr or weak_ptr h. */
    method Destroy(h: Id, ghost k: seq<Frame>)
      requires Inv(View(), [DropHandle(h)] + k)
      modifies this
      ensures Inv(View(), k) && Cascade(old(View()), [DropHandle(h)] + k) == Cascade(View(), k)
      ensures |handles| < old(|handles|)
      decreases |handles|, 0
    {
      ghost var s := View();
      CascadeStep(s, DropHandle(h), k);
      FewerHandles(s, DropHandle(h));
      var hd := handles[h];
      handles := handles - {h};
      if hd.pb.Some? {
        if hd.strong {
          DecUseCount(hd.pb.value, s, h, k);
        } else {
          assert [] + k == k;
          DecWeakCount(hd.pb.value);
        }
      } else {
        assert [] + k == k;
      }
    }

    // ---------- shared_ptr and weak_ptr ----------

    /** The end of a handle's life. */
    method Drop(h: Id)
      requires Valid() && h in handles && handles[h].holder.None?
      modifies this
      ensures Valid() && View() == DropOf(old(View()), h)
    {
      RootPending(View(), h);
      Destroy(h, []);
    }

    method NewBlock(h: Id, b: Bid, p: Option<Obj>, members: seq<Id>)
      requires Valid() && h !in handles && b !in blocks && Adoptable(View(), p, members)
      modifies this
      ensures Valid() && View() == AdoptOf(old(View()), h, b, p, members)
    {
      SoundAdopt(View(), h, b, p, members);
      handles := (map m | m in handles :: if m in members then handles[m].(holder := Some(b)) else handles[m])
                 [h := Handle(true, p, Some(b), None)];
      blocks := blocks[b := Block(1, 1, p, members, true)];
    }

    method DeleteObject(p: Option<Obj>, members: seq<Id>)
      requires Valid() && Adoptable(View(), p, members)
      modifies this
      ensures Valid() && View() == DeleteOf(old(View()), p, members)
    {
      MembersPending(View(), p, members);
      DestroyMembers(members, []);
    }

    /** The explicit constructor of shared_ptr.  Without room for the control block the object is
        deleted with all it contains, there is no handle, and the exception is passed on. */
    method Adopt(h: Id, b: Bid, p: Option<Obj>, members: seq<Id>, room: bool) returns (thrown: bool)
      requires Valid() && h !in handles && b !in blocks && Adoptable(View(), p, members)
      modifies this
      ensures Valid() && thrown == !room
      ensures View() == if room then AdoptOf(old(View()), h, b, p, members) else DeleteOf(old(View()), p, members)
    {
      if room {
        NewBlock(h, b, p, members);
      } else {
        DeleteObject(p, members);
      }
      thrown := !room;
    }

    /** Default construction of either kind of handle. */
    method NullConstruct(dst: Id, strong: bool)
      requires Valid() && dst !in handles
      modifies this
      ensures Valid() && View() == NullOf(old(View()), dst, strong)
    {
      SoundNull(View(), dst, strong);
      handles := handles[dst := Handle(strong, None, None, None)];
    }

    /** Copy construction of either kind of handle, and of weak_ptr from shared_ptr. */
    method CopyConstruct(dst: Id, src: Id, strong: bool)
      requires Valid() && src in handles && dst !in handles && (strong ==> handles[src].strong)
      modifies this
      ensures Valid() && View() == CopyOf(old(View()), dst, src, strong)
    {
      SoundCopy(View(), dst, src, strong);
      var from := handles[src];
      if from.pb.Some? {
        SoundReferred(View(), src, from.pb.value);
      }
      handles := handles[dst := Handle(strong, from.px, from.pb, None)];
      if from.pb.Some? && strong {
        IncUseCount(from.pb.value);
      } else if from.pb.Some? {
        IncWeakCount(from.pb.value);
      }
    }

    method MoveConstruct(dst: Id, src: Id)
      requires Valid() && src in handles && dst !in handles
      modifies this
      ensures Valid() && View() == MoveOf(old(View()), dst, src)
    {
      SoundMove(View(), dst, src);
      handles := handles[dst := handles[src].(holder := None)][src := handles[src].(px := None, pb := None)];
    }

    method Swap(a: Id, b: Id)
      requires Valid() && a in handles && b in handles && handles[a].strong == handles[b].strong
      modifies this
      ensures Valid() && View() == SwapOf(old(View()), a, b)
    {
      SoundSwap(View(), a, b);
      var x, y := handles[a], handles[b];
      handles := handles[a := x.(px := y.px, pb := y.pb)][b := y.(px := x.px, pb := x.pb)];
    }

    /** Swap with the local t, which then dies. */
    method SwapOut(dst: Id, t: Id)
      requires Valid() && dst in handles && t in handles && dst != t && handles[t].holder.None?
      requires handles[dst].strong == handles[t].strong
      modifies this
      ensures Valid() && View() == SwapOutOf(old(View()), dst, t)
    {
      Swap(dst, t);
      Drop(t);
    }

    /** Copy assignment, and assignment of a shared_ptr to a weak_ptr, through the local t. */
    method CopyAssign(dst: Id, src: Id, t: Id)
      requires Valid() && dst in handles && src in handles && t !in handles
      requires handles[dst].strong ==> handles[src].strong
      modifies this
      ensures Valid() && View() == AssignOf(old(View()), dst, src, t)
      ensures Replaced(old(View()), View(), dst, old(handles[src]), t)
      ensures dst == src ==> View() == old(View())
    {
      AssignReplaces(View(), dst, src, t);
      if dst == src {
        SelfAssign(View(), dst, t);
      }
      CopyConstruct(t, src, handles[dst].strong);
      SwapOut(dst, t);
    }

    method MoveAssign(dst: Id, src: Id, t: Id)
      requires Valid() && dst in handles && src in handles && t !in handles
      requires handles[dst].strong == handles[src].strong
      modifies this
      ensures Valid() && View() == MoveAssignOf(old(View()), dst, src, t)
      ensures dst != src ==> Replaced(old(View()), View(), dst, old(handles[src]), src)
      ensures dst != src && src in handles ==> handles[src].pb.None?
      ensures dst == src ==> View() == old(View())
    {
      if dst == src {
        SelfMove(View(), dst, t);
      } else {
        MoveAssignReplaces(View(), dst, src, t);
      }
      MoveConstruct(t, src);
      SwapOut(dst, t);
    }

    /** reset of a shared_ptr: also with no argument it builds a block, around a null pointer. */
    method Reset(dst: Id, t: Id, b: Bid, p: Option<Obj>, members: seq<Id>, room: bool) returns (thrown: bool)
      requires Valid() && dst in handles && handles[dst].strong && t !in handles
      requires b !in blocks && Adoptable(View(), p, members)
      modifies this
      ensures Valid() && thrown == !room
      ensures !room ==> View() == DeleteOf(old(View()), p, members)
      ensures room ==> Sound(AdoptOf(old(View()), t, b, p, members))
      ensures room ==> View() == SwapOutOf(AdoptOf(old(View()), t, b, p, members), dst, t)
      ensures room && dst in handles ==> handles[dst].px == p && handles[dst].pb == Some(b)
      ensures room && dst in handles ==> b in blocks && blocks[b].use == 1
    {
      ResetOwnsAlone(View(), dst, t, b, p, members);
      SwapOutReplaces(AdoptOf(View(), t, b, p, members), dst, t);
      thrown := Adopt(t, b, p, members, room);
      if !thrown {
        SwapOut(dst, t);
      }
    }

    method ResetWeak(dst: Id, t: Id)
      requires Valid() && dst in handles && !handles[dst].strong && t !in handles
      modifies this
      ensures Valid() && Sound(NullOf(old(View()), t, false))
      ensures View() == SwapOutOf(NullOf(old(View()), t, false), dst, t)
      ensures dst in handles ==> handles[dst].px.None? && handles[dst].pb.None?
    {
      SoundNull(View(), t, false);
      SwapOutReplaces(NullOf(View(), t, false), dst, t);
      NullConstruct(t, false);
      SwapOut(dst, t);
    }

    /** weak_ptr::lock into a new handle: it owns the object if the object is alive, else it is null. */
    method Lock(w: Id, dst: Id)
      requires Valid() && w in handles && !handles[w].strong && dst !in handles
      modifies this
      ensures Valid()
      ensures View() == if old(handles[w].pb.Some? && Alive(View(), handles[w].pb.value))
                        then CopyOf(old(View()), dst, w, true) else NullOf(old(View()), dst, true)
    {
      SoundNull(View(), dst, true);
      var pb := handles[w].pb;
      if pb.Some? {
        SoundReferred(View(), w, pb.value);
        AliveIsUsed(View(), pb.value);
        var n := blocks[pb.value].use;
        if n != 0 {
          SoundLock(View(), dst, w);
          blocks := blocks[pb.value := blocks[pb.value].(use := n + 1)];
          handles := handles[dst := Handle(true, handles[w].px, pb, None)];
          return;
        }
      }
      handles := handles[dst := Handle(true, None, None, None)];
    }

    /** use_count of either kind of handle: the strong handles of its block. */
    method UseCount(h: Id) returns (n: int)
      requires Valid() && h in handles
      ensures n == if handles[h].pb.None? then 0 else |Refs(View(), handles[h].pb.value, true)|
    {
      n := 0;
      if handles[h].pb.Some? {
        SoundReferred(View(), h, handles[h].pb.value);
        AliveIsUsed(View(), handles[h].pb.value);
        n := blocks[handles[h].pb.value].use;
      }
    }

    method Expired(w: Id) returns (gone: bool)
      requires Valid() && w in handles && !handles[w].strong
      ensures gone <==> handles[w].pb.None? || !Alive(View(), handles[w].pb.value)
    {
      var n := UseCount(w);
      if handles[w].pb.Some? {
        SoundReferred(View(), w, handles[w].pb.value);
        AliveIsUsed(View(), handles[w].pb.value);
      }
      gone := n == 0;
    }
  }
}
