/**
  The copy-stack coroutines of lib/libaco: many coroutines run on one share stack, and a switch copies the
  live part of the stack out of it and into it. What each coroutine is meant to see is a stack of its own.
 */
module Aco {
  import opened Basics

  type StackId = int
  type CoId = int

  /** A share stack: its memory from address ptr on, and the bounds of the part that coroutines use. */
  datatype ShareStack = ShareStack(ptr: int, mem: Bytes, high: int, ret: int, limit: int, validsz: int,
                                   owner: Option<CoId>) {
    /** Where the stack pointer may be when code on this stack gives up control. */
    predicate InBounds(sp: int) { high - limit <= sp <= ret }

    predicate Ok(word: nat) {
      && ret == high - word && high % 16 == 0 && word <= limit
      && ptr <= high - limit && high <= ptr + |mem|
    }

    /** The bytes from the stack pointer up to the return address. */
    function Window(sp: int): Bytes
      requires ptr <= sp <= ret <= ptr + |mem|
    {
      mem[sp - ptr..ret - ptr]
    }

    function Store(at: int, bytes: Bytes): Bytes
      requires ptr <= at && at + |bytes| <= ptr + |mem|
    {
      mem[..at - ptr] + bytes + mem[at - ptr + |bytes|..]
    }
  }

  /** A coroutine: its stack pointer as of the last switch and its save buffer, of which validSz bytes are used. */
  datatype Co = Co(stack: StackId, sp: int, isEnd: bool, save: Bytes, validSz: nat, maxCpsz: nat, ctSave: nat,
                   ctRestore: nat)

  // ---- the layout of a share stack -----------------------------------------------------------------

  /** The bytes wanted of a stack: those requested, or 2 MB, and never less than 4096. */
  function Wanted(request: nat): nat {
    if request == 0 then 1024 * 1024 * 2 else if request < 4096 then 4096 else request
  }

  /** The size of the mapping that aco_share_stack_new2 asks for. */
  method StackSize(request: nat, guard: bool, page: nat) returns (sz: nat)
    requires page > 0
    ensures sz >= 4096
    ensures guard ==> WholePages(sz, page) && sz >= 2 * page
    ensures var want := Wanted(request);
            if guard then want <= sz - page < want + page || (sz == 2 * page && want <= page) else sz == want
  {
    sz := request;
    if sz == 0 {
      sz := 1024 * 1024 * 2;
    }
    if sz < 4096 {
      sz := 4096;
    }
    if guard {
      var pages := sz / page;
      assert sz == pages * page + sz % page;
      if sz <= page {
        sz := 2 * page;
      } else if sz % page != 0 {
        sz := sz - sz % page + 2 * page;
        assert sz == (pages + 2) * page;
      } else {
        sz := sz + page;
        assert sz == (pages + 1) * page;
      }
    }
  }

  ghost predicate WholePages(sz: nat, page: nat) {
    exists n: nat :: sz == n * page
  }

  /** The usable part lies inside the mapping, aligned for calls. */
  method Layout(ptr: nat, sz: nat, word: nat) returns (s: ShareStack)
    requires (word == 4 || word == 8) && sz > 16 + 2 * word + word
    ensures s.Ok(word) && s.ptr == ptr && |s.mem| == sz && s.owner == None
    ensures ptr < s.high - s.limit && s.high <= ptr + sz - 2 * word && s.limit == sz - 16 - 2 * word
  {
    var u := sz - 2 * word + ptr;
    u := (u / 16) * 16;
    s := ShareStack(ptr, seq(sz, _ => 0), u, u - word, sz - 16 - 2 * word, 0, None);
  }

  // ---- growing a save buffer -----------------------------------------------------------------------

  const WRAP := 0x1_0000_0000_0000_0000

  /** A size doubled until it is enough. */
  function Doubled(size: nat, need: nat): (r: nat)
    requires size > 0
    ensures r >= need && r >= size && (size < need ==> r < 2 * need)
    decreases need - size
  {
    if size >= need then size else Doubled(2 * size, need)
  }

  /** The buffer size doubles, in 64-bit arithmetic, until the bytes fit; it never becomes zero. */
  method Grow(size: nat, need: nat) returns (sz: nat)
    requires 0 < size < need <= WRAP / 2
    ensures sz == Doubled(size, need) && need <= sz < 2 * need && sz < WRAP
  {
    sz := size;
    while true
      invariant 0 < sz < need && Doubled(size, need) == Doubled(sz, need)
      decreases need - sz
    {
      sz := (2 * sz) % WRAP;
      assert sz > 0;
      if sz >= need {
        break;
      }
    }
  }

  // ---- the coroutines of a thread ------------------------------------------------------------------

  /** The memory that a coroutine would have on a stack of its own: what it wrote, by address. */
  type Memory = map<int, int>

  /** Bytes written from an address on. */
  function Written(own: Memory, at: int, bytes: Bytes): Memory {
    own + map a: int | at <= a < at + |bytes| && InSpan(at, |bytes|, a) :: bytes[a - at]
  }

  predicate InSpan(at: int, n: nat, a: int) { at <= a < at + n }

  /** What is below the stack pointer is given up. */
  function Above(own: Memory, sp: int): Memory {
    map a | a in own && sp <= a :: own[a]
  }

  /**
   * The coroutines and stacks of a thread. As history, private is what each coroutine left on its stack when it
   * last gave up control, own the memory it would have on a stack of its own, and users how many coroutines were
   * ever created on a stack.
   */
  datatype World = World(stacks: map<StackId, ShareStack>, cos: map<CoId, Co>, running: Option<CoId>,
                         private: map<CoId, Bytes>, own: map<CoId, Memory>, users: map<StackId, nat>)
  {
    function OwnOf(c: CoId): Memory {
      if c in own then own[c] else map[]
    }

    function UsersOf(k: StackId): nat {
      if k in users then users[k] else 0
    }

    /** The running coroutine and its stack, whose used part holds the addresses from lo to hi. */
    predicate RunsOn(lo: int, hi: int) {
      && running.Some? && running.value in cos && cos[running.value].stack in stacks
      && var s := stacks[cos[running.value].stack];
         s.high - s.limit <= lo <= hi <= s.ret
    }

    /** A coroutine's own memory is what it finds on the stack when it runs, and what it left when it does not. */
    ghost predicate OwnOk(c: CoId)
      requires c in cos
    {
      !cos[c].isEnd ==>
        && cos[c].stack in stacks && c in own
        && var s := stacks[cos[c].stack];
        if running == Some(c) then
          forall a :: a in own[c] ==>
              s.high - s.limit <= a < s.ret && 0 <= a - s.ptr < |s.mem| && s.mem[a - s.ptr] == own[c][a]
        else
          && c in private
          && forall a :: a in own[c] ==> 0 <= a - cos[c].sp < |private[c]| && private[c][a - cos[c].sp] == own[c][a]
    }

    ghost predicate StackOk(word: nat, k: StackId)
      requires k in stacks
    {
      && stacks[k].Ok(word) && |stacks[k].mem| <= WRAP / 2 && k in users
      && match stacks[k].owner
         case None => true
         case Some(c) => c in cos && cos[c].stack == k && !cos[c].isEnd
    }

    /** A coroutine that is not running finds its bytes on the stack if it owns it, else in its save buffer. */
    ghost predicate CoOk(word: nat, c: CoId)
      requires c in cos
    {
      && cos[c].stack in stacks && stacks[cos[c].stack].Ok(word) && stacks[cos[c].stack].InBounds(cos[c].sp)
      && cos[c].validSz <= |cos[c].save| && |cos[c].save| > 0
      && (running == Some(c) ==> stacks[cos[c].stack].owner == Some(c) && !cos[c].isEnd)
      && (!cos[c].isEnd && running != Some(c) ==> Kept(word, c))
    }

    ghost predicate Kept(word: nat, c: CoId)
      requires c in cos && cos[c].stack in stacks && stacks[cos[c].stack].Ok(word)
               && stacks[cos[c].stack].InBounds(cos[c].sp)
      requires cos[c].validSz <= |cos[c].save|
    {
      var s := stacks[cos[c].stack];
      && c in private && |private[c]| == s.ret - cos[c].sp
      && if s.owner == Some(c) then s.Window(cos[c].sp) == private[c]
         else cos[c].validSz == s.ret - cos[c].sp && cos[c].save[..cos[c].validSz] == private[c]
    }

    /** The only coroutine that was ever on its stack has never been copied. */
    ghost predicate AloneOk(c: CoId)
      requires c in cos
    {
      cos[c].stack in users && users[cos[c].stack] <= 1 ==>
        && cos[c].validSz == 0 && cos[c].ctSave == 0 && cos[c].ctRestore == 0
        && users[cos[c].stack] == 1 && forall d :: d in cos && cos[d].stack == cos[c].stack ==> d == c
    }

    ghost predicate Ok(word: nat) {
      && (forall k {:trigger StackOk(word, k)} :: k in stacks ==> StackOk(word, k))
      && (forall c {:trigger CoOk(word, c)} :: c in cos ==> CoOk(word, c))
      && (forall c {:trigger AloneOk(c)} :: c in cos ==> AloneOk(c))
      && (forall c {:trigger OwnOk(c)} :: c in cos ==> OwnOk(c))
      && (running.Some? ==> running.value in cos)
    }
  }

  // ---- what the operations do ------------------------------------------------------------------------

  /** The calls of a thread's coroutines and of its main one, and the writes of the code that runs in between. */
  datatype Action =
    | NewStack(k: StackId, s: ShareStack)
    | CreateCo(c: CoId, k: StackId, saveSize: nat)
    | Write(at: int, bytes: Bytes)
    | YieldAt(sp: int)
    | ExitAt(sp: int)
    | ResumeCo(c: CoId)
    | DestroyCo(c: CoId)
    | DropStack(k: StackId)

  /**
    What the callers see to: code that runs stays in the used part of its stack, and only the main coroutine resumes
    others.
   */
  predicate Enabled(word: nat, w: World, a: Action) {
    match a
    case NewStack(k, s) => k !in w.stacks && s.Ok(word) && |s.mem| <= WRAP / 2 && s.owner == None
    case CreateCo(c, k, _) => c !in w.cos && k in w.stacks
    case Write(at, bytes) => w.RunsOn(at, at + |bytes|)
    case YieldAt(sp) => w.RunsOn(sp, sp)
    case ExitAt(sp) => w.RunsOn(sp, sp)
    case ResumeCo(c) => w.running == None && c in w.cos && !w.cos[c].isEnd
    case DestroyCo(c) => c in w.cos && w.running != Some(c)
    case DropStack(k) => k in w.stacks && forall c :: c in w.cos ==> w.cos[c].stack != k
  }

  /** The owner's bytes may be saved: its stack pointer is in bounds and the sizes of its buffer do not wrap. */
  predicate CanSave(s: ShareStack, co: Co) {
    && s.InBounds(co.sp) && s.ptr <= co.sp && s.ret <= s.ptr + |s.mem|
    && |co.save| > 0 && s.ret - co.sp <= WRAP / 2
  }

  predicate CanRestore(word: nat, s: ShareStack, co: Co) {
    && co.validSz <= s.limit - word && co.validSz <= |co.save|
    && s.ptr <= s.ret - co.validSz && s.ret <= s.ptr + |s.mem|
  }

  /** All assertions on the way hold, and nothing outside the stacks and buffers is touched. */
  predicate Safe(word: nat, w: World, a: Action)
    requires Enabled(word, w, a)
  {
    match a
    case Write(at, bytes) =>
      var s := w.stacks[w.cos[w.running.value].stack];
      s.ptr <= at && at + |bytes| <= s.ptr + |s.mem|
    case YieldAt(sp) =>
      var s := w.stacks[w.cos[w.running.value].stack];
      s.ptr <= sp && s.ret <= s.ptr + |s.mem|
    case ExitAt(sp) => w.stacks[w.cos[w.running.value].stack].owner == w.running
    case ResumeCo(c) =>
      && w.cos[c].stack in w.stacks
      && var s := w.stacks[w.cos[c].stack];
         s.owner == Some(c) || (MaySave(w, s, w.cos[c].stack) && CanRestore(word, s, w.cos[c]))
    case DestroyCo(c) => w.cos[c].stack in w.stacks
    case _ => true
  }

  predicate MaySave(w: World, s: ShareStack, k: StackId) {
    s.owner.Some? ==> s.owner.value in w.cos && w.cos[s.owner.value].stack == k && CanSave(s, w.cos[s.owner.value])
  }

  /** The save buffer with the owner's bytes in it, larger if it was too small. */
  function SaveBuffer(s: ShareStack, co: Co): (r: Bytes)
    requires CanSave(s, co)
    ensures |r| > 0 && |r| >= s.ret - co.sp && r[..s.ret - co.sp] == s.Window(co.sp)
  {
    var valid := s.ret - co.sp;
    var room := if |co.save| < valid then seq(Doubled(|co.save|, valid), _ => 0) else co.save;
    s.Window(co.sp) + room[valid..]
  }

  function SavedCo(s: ShareStack, co: Co): Co
    requires CanSave(s, co)
  {
    var valid := s.ret - co.sp;
    co.(save := SaveBuffer(s, co), validSz := valid, ctSave := if valid > 0 then co.ctSave + 1 else co.ctSave,
        maxCpsz := if valid > co.maxCpsz then valid else co.maxCpsz)
  }

  /** The owner o of stack k is saved, and the stack has no owner. */
  function Saved(w: World, k: StackId, o: CoId): World
    requires k in w.stacks && o in w.cos && CanSave(w.stacks[k], w.cos[o])
  {
    w.(stacks := w.stacks[k := w.stacks[k].(owner := None, validsz := 0)],
        cos := w.cos[o := SavedCo(w.stacks[k], w.cos[o])])
  }

  /** The stack after the saved bytes of c were copied back to it. */
  function Restored(s: ShareStack, co: Co, c: CoId, word: nat): ShareStack
    requires s.ptr <= s.ret - co.validSz && s.ret <= s.ptr + |s.mem| && co.validSz <= |co.save|
  {
    s.(mem := s.Store(s.ret - co.validSz, co.save[..co.validSz]), validsz := co.validSz + word, owner := Some(c))
  }

  function RestoredCo(co: Co): Co {
    co.(ctRestore := if co.validSz > 0 then co.ctRestore + 1 else co.ctRestore,
        maxCpsz := if co.validSz > co.maxCpsz then co.validSz else co.maxCpsz)
  }

  /** The saved bytes of c are copied back to stack k, and c owns it and runs. */
  function RestoredIn(word: nat, w: World, k: StackId, c: CoId): World
    requires k in w.stacks && c in w.cos && CanRestore(word, w.stacks[k], w.cos[c])
  {
    w.(stacks := w.stacks[k := Restored(w.stacks[k], w.cos[c], c, word)], cos := w.cos[c := RestoredCo(w.cos[c])],
        running := Some(c))
  }

  function Resumed(word: nat, w: World, c: CoId): World
    requires Enabled(word, w, ResumeCo(c)) && Safe(word, w, ResumeCo(c))
  {
    var k := w.cos[c].stack;
    var s := w.stacks[k];
    if s.owner == Some(c) then w.(running := Some(c))
    else RestoredIn(word, if s.owner.Some? then Saved(w, k, s.owner.value) else w, k, c)
  }

  /** Stack k is no longer owned by c, if it was. */
  function Disowned(stacks: map<StackId, ShareStack>, k: StackId, c: CoId): map<StackId, ShareStack>
    requires k in stacks
  {
    if stacks[k].owner == Some(c) then stacks[k := stacks[k].(owner := None, validsz := 0)] else stacks
  }

  function Do(word: nat, w: World, a: Action): World
    requires Enabled(word, w, a) && Safe(word, w, a)
  {
    match a
    case NewStack(k, s) => w.(stacks := w.stacks[k := s], users := w.users[k := 0])
    case CreateCo(c, k, n) =>
      var co := Co(k, w.stacks[k].ret, false, seq(if n == 0 then 64 else n, _ => 0), 0, 0, 0, 0);
      w.(cos := w.cos[c := co], private := w.private[c := []], own := w.own[c := map[]],
          users := w.users[k := w.UsersOf(k) + 1])
    case Write(at, bytes) =>
      var c := w.running.value;
      var k := w.cos[c].stack;
      w.(stacks := w.stacks[k := w.stacks[k].(mem := w.stacks[k].Store(at, bytes))],
          own := w.own[c := Written(w.OwnOf(c), at, bytes)])
    case YieldAt(sp) =>
      var c := w.running.value;
      w.(cos := w.cos[c := w.cos[c].(sp := sp)], running := None,
         private := w.private[c := w.stacks[w.cos[c].stack].Window(sp)], own := w.own[c := Above(w.OwnOf(c), sp)])
    case ExitAt(sp) =>
      var c := w.running.value;
      var k := w.cos[c].stack;
      w.(stacks := w.stacks[k := w.stacks[k].(owner := None, validsz := 0)],
         cos := w.cos[c := w.cos[c].(isEnd := true, sp := sp)], running := None)
    case ResumeCo(c) => Resumed(word, w, c)
    case DestroyCo(c) =>
      var k := w.cos[c].stack;
      w.(stacks := Disowned(w.stacks, k, c), cos := w.cos - {c})
    case DropStack(k) => w.(stacks := w.stacks - {k})
  }

  // ---- the library -----------------------------------------------------------------------------------------

  class Runtime {
    const word: nat
    var stacks: map<StackId, ShareStack>
    var cos: map<CoId, Co>
    var running: Option<CoId>
    ghost var private: map<CoId, Bytes>
    ghost var own: map<CoId, Memory>
    ghost var users: map<StackId, nat>

    ghost function W(): World reads this {
      World(stacks, cos, running, private, own, users)
    }

    ghost predicate Valid() reads this {
      (word == 4 || word == 8) && W().Ok(word)
    }

    /** The state is what action a makes of w, and it is as sound as w was. */
    ghost predicate Did(w: World, a: Action) reads this {
      Valid() && Enabled(word, w, a) && Safe(word, w, a) && W() == Do(word, w, a)
    }

    constructor (w: nat)
      requires w == 4 || w == 8
      ensures Valid() && W() == NoWorld() && word == w
    {
      word := w;
      stacks, cos, running := map[], map[], None;
      private, own, users := map[], map[], map[];
    }

    method ShareStackNew(k: StackId, ptr: nat, request: nat, guard: bool, page: nat)
      requires Valid() && k !in stacks && page > 0 && request <= WRAP / 4 && page <= WRAP / 16
      modifies this
      ensures k in stacks && Did(old(W()), NewStack(k, stacks[k]))
      ensures var s := stacks[k];
              && s.Ok(word) && s.ptr == ptr && |s.mem| >= Wanted(request)
              && ptr < s.high - s.limit && s.high <= ptr + |s.mem| - 2 * word && s.limit == |s.mem| - 16 - 2 * word
    {
      var sz := StackSize(request, guard, page);
      ghost var w := W();
      var s := Layout(ptr, if guard then sz - page else sz, word);
      stacks := stacks[k := s];
      users := users[k := 0];
      ActionKeeps(word, w, NewStack(k, s));
    }

    method Create(c: CoId, k: StackId, saveSize: nat)
      requires Valid() && k in stacks && c !in cos
      modifies this
      ensures Did(old(W()), CreateCo(c, k, saveSize))
    {
      ActionKeeps(word, W(), CreateCo(c, k, saveSize));
      var sz := if saveSize == 0 then 64 else saveSize;
      var co := Co(k, stacks[k].ret, false, seq(sz, _ => 0), 0, 0, 0, 0);
      cos := cos[c := co];
      private := private[c := []];
      own := own[c := map[]];
      users := users[k := W().UsersOf(k) + 1];
    }

    /** Code that runs writes to the used part of its stack, and may leave its stack pointer anywhere in it. */
    method Run(at: int, bytes: Bytes)
      requires Valid() && W().RunsOn(at, at + |bytes|)
      modifies this
      ensures Did(old(W()), Write(at, bytes)) && running == old(running) && cos == old(cos)
      ensures var k := cos[running.value].stack;
              k in stacks && stacks == old(stacks)[k := old(stacks)[k].(mem := stacks[k].mem)]
    {
      ActionKeeps(word, W(), Write(at, bytes));
      var k := cos[running.value].stack;
      stacks := stacks[k := stacks[k].(mem := stacks[k].Store(at, bytes))];
      own := own[running.value := Written(W().OwnOf(running.value), at, bytes)];
    }

    /**
      What the running coroutine reads where it wrote, and has not given up since, is what it wrote: as on a stack of
      its own.
     */
    method Read(a: int) returns (b: int)
      requires Valid() && W().RunsOn(a, a + 1)
      ensures a in W().OwnOf(running.value) ==> b == W().OwnOf(running.value)[a]
    {
      var s := stacks[cos[running.value].stack];
      assert W().CoOk(word, running.value) && W().OwnOk(running.value);
      b := s.mem[a - s.ptr];
    }

    /** aco_yield1: the running coroutine leaves its bytes above sp and control goes back to the main one. */
    method Yield(sp: int)
      requires Valid() && W().RunsOn(sp, sp)
      modifies this
      ensures Did(old(W()), YieldAt(sp))
    {
      ActionKeeps(word, W(), YieldAt(sp));
      var c := running.value;
      private := private[c := stacks[cos[c].stack].Window(sp)];
      own := own[c := Above(W().OwnOf(c), sp)];
      cos := cos[c := cos[c].(sp := sp)];
      running := None;
    }

    /** aco_exit1: the running coroutine ends and gives its stack up. */
    method Exit(sp: int)
      requires Valid() && W().RunsOn(sp, sp)
      modifies this
      ensures Did(old(W()), ExitAt(sp))
    {
      ActionKeeps(word, W(), ExitAt(sp));
      var c := running.value;
      var k := cos[c].stack;
      assert stacks[k].owner == Some(c);
      stacks := stacks[k := stacks[k].(owner := None, validsz := 0)];
      cos := cos[c := cos[c].(isEnd := true, sp := sp)];
      running := None;
    }

    // The first part of aco_resume: the bytes of the owner o go to its save buffer.
    method SaveOwner(k: StackId, o: CoId)
      requires k in stacks && o in cos && cos[o].stack == k && CanSave(stacks[k], cos[o])
      modifies this`stacks, this`cos
      ensures W() == Saved(old(W()), k, o)
    {
      var s, co := stacks[k], cos[o];
      assert s.ret >= co.sp && s.high - s.limit <= co.sp;
      var valid := s.ret - co.sp;
      var save := co.save;
      if |save| < valid {
        var sz := Grow(|save|, valid);
        save := seq(sz, _ => 0);
      }
      save := s.Window(co.sp) + save[valid..];
      co := co.(save := save, validSz := valid, ctSave := if valid > 0 then co.ctSave + 1 else co.ctSave,
                maxCpsz := if valid > co.maxCpsz then valid else co.maxCpsz);
      cos := cos[o := co];
      stacks := stacks[k := s.(owner := None, validsz := 0)];
    }

    // The second part: the saved bytes of c go back to where they were, and c owns the stack.
    method Restore(k: StackId, c: CoId)
      requires k in stacks && c in cos && CanRestore(word, stacks[k], cos[c])
      modifies this`stacks, this`cos, this`running
      ensures W() == RestoredIn(word, old(W()), k, c)
    {
      var s, co := stacks[k], cos[c];
      assert co.validSz <= s.limit - word;
      s := s.(mem := s.Store(s.ret - co.validSz, co.save[..co.validSz]), validsz := co.validSz + word,
          owner := Some(c));
      co := co.(ctRestore := if co.validSz > 0 then co.ctRestore + 1 else co.ctRestore,
                maxCpsz := if co.validSz > co.maxCpsz then co.validSz else co.maxCpsz);
      stacks := stacks[k := s];
      cos := cos[c := co];
      running := Some(c);
    }

    /** aco_resume: the coroutine runs, and finds above its stack pointer exactly the bytes it left there. */
    method Resume(c: CoId)
      requires Valid() && running == None && c in cos && !cos[c].isEnd
      modifies this
      ensures Did(old(W()), ResumeCo(c)) && running == Some(c) && SameCos(old(cos), cos)
      ensures var k := cos[c].stack;
              k in old(stacks) && stacks == old(stacks)[k := stacks[k]] && SameLayout(old(stacks)[k], stacks[k])
      ensures var k := cos[c].stack;
              && k in stacks && stacks[k].Ok(word) && stacks[k].InBounds(cos[c].sp)
              && c in private && stacks[k].Window(cos[c].sp) == private[c]
    {
      ghost var w := W();
      ActionKeeps(word, w, ResumeCo(c));
      ResumeFinds(word, w, c);
      ResumeChanges(word, w, c);
      var k := cos[c].stack;
      if stacks[k].owner != Some(c) {
        if stacks[k].owner != None {
          SaveOwner(k, stacks[k].owner.value);
        }
        assert stacks[k].owner == None;
        Restore(k, c);
      } else {
        running := Some(c);
      }
    }

    method Destroy(c: CoId)
      requires Valid() && c in cos && running != Some(c)
      modifies this
      ensures Did(old(W()), DestroyCo(c))
    {
      ActionKeeps(word, W(), DestroyCo(c));
      var k := cos[c].stack;
      if stacks[k].owner == Some(c) {
        stacks := stacks[k := stacks[k].(owner := None, validsz := 0)];
      }
      cos := cos - {c};
    }

    /** A stack is given back when no coroutine is on it. */
    method ShareStackDestroy(k: StackId)
      requires Valid() && k in stacks && forall c :: c in cos ==> cos[c].stack != k
      modifies this
      ensures Did(old(W()), DropStack(k))
    {
      ActionKeeps(word, W(), DropStack(k));
      stacks := stacks - {k};
    }
  }

  /** After a write the running coroutine may yield with its stack pointer anywhere in the used part. */
  method WriteThenYield(r: Runtime, at: int, bytes: Bytes, sp: int)
    requires r.Valid() && r.W().RunsOn(at, at + |bytes|) && r.W().RunsOn(sp, sp)
    modifies r
    ensures r.Valid() && r.running == None
  {
    r.Run(at, bytes);
    r.Yield(sp);
  }

  lemma NewStackKeeps(word: nat, w: World, k: StackId, s: ShareStack)
    requires w.Ok(word) && k !in w.stacks && s.Ok(word) && |s.mem| <= WRAP / 2 && s.owner == None
    ensures w.(stacks := w.stacks[k := s], users := w.users[k := 0]).Ok(word)
  {
    var w' := w.(stacks := w.stacks[k := s], users := w.users[k := 0]);
    forall j | j in w'.stacks ensures w'.StackOk(word, j) { assert j != k ==> w.StackOk(word, j); }
    forall c | c in w'.cos ensures w'.CoOk(word, c) && w'.AloneOk(c) && w'.OwnOk(c) {
      assert w.CoOk(word, c) && w.AloneOk(c) && w.OwnOk(c);
    }
  }

  lemma CreateKeeps(word: nat, w: World, c: CoId, k: StackId, co: Co)
    requires w.Ok(word) && k in w.stacks && k in w.users && c !in w.cos && |co.save| > 0
    requires co.stack == k && co.sp == w.stacks[k].ret && !co.isEnd && co.validSz == 0 && co.ctSave == 0
             && co.ctRestore == 0
    ensures w.(cos := w.cos[c := co], private := w.private[c := []], own := w.own[c := map[]],
            users := w.users[k := w.users[k] + 1]).Ok(word)
  {
    var w' := w.(cos := w.cos[c := co], private := w.private[c := []], own := w.own[c := map[]],
        users := w.users[k := w.users[k] + 1]);
    forall j | j in w'.stacks ensures w'.StackOk(word, j) { assert w.StackOk(word, j); }
    assert w.StackOk(word, k);
    forall d | d in w'.cos ensures w'.CoOk(word, d) { assert d != c ==> w.CoOk(word, d); }
    forall d | d in w'.cos ensures w'.OwnOk(d) { assert d != c ==> w.OwnOk(d); }
    forall d | d in w'.cos ensures w'.AloneOk(d) {
      assert d != c ==> w.AloneOk(d);
      forall e | w.users[k] == 0 && e in w.cos ensures w.cos[e].stack != k { assert w.AloneOk(e); }
    }
  }

  lemma WriteOwn(word: nat, w: World, w': World, c: CoId, at: int, bytes: Bytes, d: CoId)
    requires w.Ok(word) && w.running == Some(c) && c in w.cos && w.cos[c].stack in w.stacks
             && w.stacks[w.cos[c].stack].Ok(word)
    requires var s := w.stacks[w.cos[c].stack]; s.high - s.limit <= at && at + |bytes| <= s.ret
    requires c in w.own && d in w.cos
    requires var k := w.cos[c].stack;
             w' == w.(stacks := w.stacks[k := w.stacks[k].(mem := w.stacks[k].Store(at, bytes))],
                 own := w.own[c := Written(w.own[c], at, bytes)])
    ensures w'.OwnOk(d)
  {
    assert w.OwnOk(d) && w.CoOk(word, c);
  }

  lemma WriteKeeps(word: nat, w: World, c: CoId, at: int, bytes: Bytes)
    requires w.Ok(word) && w.running == Some(c) && c in w.cos && w.cos[c].stack in w.stacks
             && w.stacks[w.cos[c].stack].Ok(word)
    requires var s := w.stacks[w.cos[c].stack]; s.high - s.limit <= at && at + |bytes| <= s.ret
    ensures var k := w.cos[c].stack;
            c in w.own && w.(stacks := w.stacks[k := w.stacks[k].(mem := w.stacks[k].Store(at, bytes))],
                             own := w.own[c := Written(w.own[c], at, bytes)]).Ok(word)
  {
    var k := w.cos[c].stack;
    assert w.CoOk(word, c) && w.StackOk(word, k) && w.OwnOk(c);
    var w' := w.(stacks := w.stacks[k := w.stacks[k].(mem := w.stacks[k].Store(at, bytes))],
                 own := w.own[c := Written(w.own[c], at, bytes)]);
    forall j | j in w'.stacks ensures w'.StackOk(word, j) { assert w.StackOk(word, j); }
    forall d | d in w'.cos ensures w'.CoOk(word, d) && w'.AloneOk(d) { assert w.CoOk(word, d) && w.AloneOk(d); }
    forall d | d in w'.cos ensures w'.OwnOk(d) { WriteOwn(word, w, w', c, at, bytes, d); }
  }

  lemma YieldOwn(word: nat, w: World, w': World, c: CoId, sp: int, d: CoId)
    requires w.running == Some(c) && c in w.cos && d in w.cos && w.OwnOk(c) && w.OwnOk(d) && w.cos[c].stack in w.stacks
             && !w.cos[c].isEnd
    requires w.stacks[w.cos[c].stack].Ok(word) && w.stacks[w.cos[c].stack].InBounds(sp) && c in w.own
    requires w' == w.(cos := w.cos[c := w.cos[c].(sp := sp)], running := None,
                      private := w.private[c := w.stacks[w.cos[c].stack].Window(sp)],
                          own := w.own[c := Above(w.own[c], sp)])
    ensures w'.OwnOk(d)
  {
  }

  lemma YieldKeeps(word: nat, w: World, c: CoId, sp: int)
    requires w.Ok(word) && w.running == Some(c) && c in w.cos && w.cos[c].stack in w.stacks
    requires w.stacks[w.cos[c].stack].Ok(word) && w.stacks[w.cos[c].stack].InBounds(sp)
    ensures c in w.own && w.(cos := w.cos[c := w.cos[c].(sp := sp)], running := None,
                             private := w.private[c := w.stacks[w.cos[c].stack].Window(sp)],
                             own := w.own[c := Above(w.own[c], sp)]).Ok(word)
  {
    assert w.CoOk(word, c) && w.StackOk(word, w.cos[c].stack) && w.OwnOk(c);
    var w' := w.(cos := w.cos[c := w.cos[c].(sp := sp)], running := None,
                 private := w.private[c := w.stacks[w.cos[c].stack].Window(sp)],
                     own := w.own[c := Above(w.own[c], sp)]);
    forall j | j in w'.stacks ensures w'.StackOk(word, j) { assert w.StackOk(word, j); }
    forall d | d in w'.cos ensures w'.CoOk(word, d) { assert w.CoOk(word, d); }
    forall d | d in w'.cos ensures w'.AloneOk(d) { assert w.AloneOk(d) && w.AloneOk(c); }
    forall d | d in w'.cos ensures w'.OwnOk(d) { YieldOwn(word, w, w', c, sp, d); }
  }

  lemma ExitKeeps(word: nat, w: World, c: CoId, sp: int)
    requires w.Ok(word) && w.running == Some(c) && c in w.cos && w.cos[c].stack in w.stacks
    requires w.stacks[w.cos[c].stack].InBounds(sp)
    ensures var k := w.cos[c].stack;
            w.(stacks := w.stacks[k := w.stacks[k].(owner := None, validsz := 0)],
               cos := w.cos[c := w.cos[c].(isEnd := true, sp := sp)], running := None).Ok(word)
  {
    var k := w.cos[c].stack;
    var w' := w.(stacks := w.stacks[k := w.stacks[k].(owner := None, validsz := 0)],
                 cos := w.cos[c := w.cos[c].(isEnd := true, sp := sp)], running := None);
    assert w.CoOk(word, c);
    forall j | j in w'.stacks ensures w'.StackOk(word, j) { assert w.StackOk(word, j); }
    forall d | d in w'.cos ensures w'.CoOk(word, d) { assert w.CoOk(word, d); }
    forall d | d in w'.cos ensures w'.AloneOk(d) { assert w.AloneOk(d); }
    forall d | d in w'.cos ensures w'.OwnOk(d) { assert w.OwnOk(d); }
  }

  lemma SaveKeeps(word: nat, w: World, k: StackId, o: CoId)
    requires w.Ok(word) && w.running == None && k in w.stacks && w.stacks[k].owner == Some(o)
    requires o in w.cos && CanSave(w.stacks[k], w.cos[o])
    requires exists c :: OtherOn(w, k, o, c)
    ensures Saved(w, k, o).Ok(word)
  {
    var w' := Saved(w, k, o);
    assert w.StackOk(word, k) && w.CoOk(word, o) && w.AloneOk(o);
    forall j | j in w'.stacks ensures w'.StackOk(word, j) { assert w.StackOk(word, j); }
    forall d | d in w'.cos ensures w'.CoOk(word, d) { assert w.CoOk(word, d); }
    var c :| OtherOn(w, k, o, c);
    forall d | d in w'.cos ensures w'.AloneOk(d) { assert w.AloneOk(d); }
    forall d | d in w'.cos ensures w'.OwnOk(d) { assert w.OwnOk(d); }
  }

  ghost predicate OtherOn(w: World, k: StackId, o: CoId, c: CoId) {
    c in w.cos && w.cos[c].stack == k && c != o
  }

  lemma RestoreOwn(word: nat, w: World, w': World, k: StackId, c: CoId, d: CoId)
    requires w.Ok(word) && w.running == None && k in w.stacks && k in w'.stacks && c in w.cos && w.cos[c].stack == k
             && !w.cos[c].isEnd
    requires w'.own == w.own && w'.private == w.private && w'.running == Some(c) && d in w.cos
    requires w'.cos.Keys == w.cos.Keys && forall e :: e in w.cos ==>
             w'.cos[e].stack == w.cos[e].stack && w'.cos[e].sp == w.cos[e].sp
    requires forall e :: e in w.cos ==> w'.cos[e].isEnd == w.cos[e].isEnd
    requires w.stacks.Keys == w'.stacks.Keys && w'.stacks[k].Ok(word) && w'.stacks[k].InBounds(w.cos[c].sp)
    requires c in w.private && w'.stacks[k].Window(w.cos[c].sp) == w.private[c]
    ensures w'.OwnOk(d)
  {
    assert w.OwnOk(d);
  }

  // What is copied back is the private stack of c, where c left it.
  lemma RestoredWindow(word: nat, w: World, k: StackId, c: CoId)
    requires w.Ok(word) && w.running == None && k in w.stacks && w.stacks[k].owner == None
    requires c in w.cos && w.cos[c].stack == k && !w.cos[c].isEnd
    ensures CanRestore(word, w.stacks[k], w.cos[c])
    ensures var s', sp := Restored(w.stacks[k], w.cos[c], c, word), w.cos[c].sp;
            s'.Ok(word) && s'.InBounds(sp) && c in w.private && s'.Window(sp) == w.private[c]
  {
    assert w.StackOk(word, k) && w.CoOk(word, c);
  }

  lemma RestoreKeeps(word: nat, w: World, k: StackId, c: CoId)
    requires w.Ok(word) && w.running == None && k in w.stacks && w.stacks[k].owner == None
    requires c in w.cos && w.cos[c].stack == k && !w.cos[c].isEnd
    ensures CanRestore(word, w.stacks[k], w.cos[c]) && RestoredIn(word, w, k, c).Ok(word)
  {
    RestoredWindow(word, w, k, c);
    var w' := RestoredIn(word, w, k, c);
    forall j | j in w'.stacks ensures w'.StackOk(word, j) { assert w.StackOk(word, j); }
    forall d | d in w'.cos ensures w'.CoOk(word, d) { assert w.CoOk(word, d); }
    forall d | d in w'.cos ensures w'.AloneOk(d) { assert w.AloneOk(d) && w.AloneOk(c); }
    forall d | d in w'.cos ensures w'.OwnOk(d) { RestoreOwn(word, w, w', k, c, d); }
  }

  lemma SwitchKeeps(word: nat, w: World, c: CoId)
    requires w.Ok(word) && w.running == None && c in w.cos && !w.cos[c].isEnd && w.cos[c].stack in w.stacks
    requires w.stacks[w.cos[c].stack].owner == Some(c)
    ensures w.(running := Some(c)).Ok(word)
  {
    assert w.CoOk(word, c) && w.StackOk(word, w.cos[c].stack);
    var w' := w.(running := Some(c));
    forall j | j in w'.stacks ensures w'.StackOk(word, j) { assert w.StackOk(word, j); }
    forall d | d in w'.cos ensures w'.CoOk(word, d) { assert w.CoOk(word, d); }
    forall d | d in w'.cos ensures w'.AloneOk(d) { assert w.AloneOk(d); }
    forall d | d in w'.cos ensures w'.OwnOk(d) { assert w.OwnOk(d); }
  }

  lemma DestroyOther(word: nat, w: World, w': World, c: CoId, d: CoId)
    requires w.Ok(word) && c in w.cos && w.running != Some(c) && w.cos[c].stack in w.stacks && d in w.cos && d != c
    requires w' == w.(stacks := Disowned(w.stacks, w.cos[c].stack, c), cos := w.cos - {c})
    ensures w'.CoOk(word, d) && w'.OwnOk(d)
  {
    assert w.CoOk(word, d) && w.OwnOk(d);
  }

  lemma DestroyKeeps(word: nat, w: World, c: CoId)
    requires w.Ok(word) && c in w.cos && w.running != Some(c) && w.cos[c].stack in w.stacks
    ensures var k := w.cos[c].stack;
            w.(stacks := Disowned(w.stacks, k, c), cos := w.cos - {c}).Ok(word)
  {
    var k := w.cos[c].stack;
    var w' := w.(stacks := Disowned(w.stacks, k, c), cos := w.cos - {c});
    forall j | j in w'.stacks ensures w'.StackOk(word, j) { assert w.StackOk(word, j); }
    forall d | d in w'.cos ensures w'.CoOk(word, d) && w'.OwnOk(d) { DestroyOther(word, w, w', c, d); }
    forall d | d in w'.cos ensures w'.AloneOk(d) { assert w.AloneOk(d); }
  }

  lemma DropKeeps(word: nat, w: World, k: StackId)
    requires w.Ok(word) && k in w.stacks && forall c :: c in w.cos ==> w.cos[c].stack != k
    ensures w.(stacks := w.stacks - {k}).Ok(word)
  {
    var w' := w.(stacks := w.stacks - {k});
    forall j | j in w'.stacks ensures w'.StackOk(word, j) { assert w.StackOk(word, j); }
    forall c | c in w'.cos ensures w'.CoOk(word, c) && w'.AloneOk(c) && w'.OwnOk(c) {
      assert w.CoOk(word, c) && w.AloneOk(c) && w.OwnOk(c);
    }
  }

  // ---- every step, every run -------------------------------------------------------------------------------

  /** Where all is well, no assertion fails, whatever is called. */
  lemma EnabledIsSafe(word: nat, w: World, a: Action)
    requires w.Ok(word) && Enabled(word, w, a)
    ensures Safe(word, w, a)
  {
    match a
    case Write(_, _) => assert w.CoOk(word, w.running.value);
    case YieldAt(_) => assert w.CoOk(word, w.running.value);
    case ExitAt(_) => assert w.CoOk(word, w.running.value);
    case ResumeCo(c) =>
      assert w.CoOk(word, c);
      var k := w.cos[c].stack;
      assert w.StackOk(word, k);
      if w.stacks[k].owner.Some? {
        assert w.CoOk(word, w.stacks[k].owner.value);
      }
    case DestroyCo(c) => assert w.CoOk(word, c);
    case _ =>
  }

  lemma ResumeKeeps(word: nat, w: World, c: CoId)
    requires w.Ok(word) && Enabled(word, w, ResumeCo(c)) && Safe(word, w, ResumeCo(c))
    ensures Resumed(word, w, c).Ok(word)
  {
    var k := w.cos[c].stack;
    assert w.StackOk(word, k);
    var s := w.stacks[k];
    if s.owner == Some(c) {
      SwitchKeeps(word, w, c);
    } else if s.owner.Some? {
      assert OtherOn(w, k, s.owner.value, c);
      SaveKeeps(word, w, k, s.owner.value);
      RestoreKeeps(word, Saved(w, k, s.owner.value), k, c);
    } else {
      RestoreKeeps(word, w, k, c);
    }
  }

  /** Each action keeps all that makes the world sound. */
  lemma ActionKeeps(word: nat, w: World, a: Action)
    requires w.Ok(word) && Enabled(word, w, a)
    ensures Safe(word, w, a) && Do(word, w, a).Ok(word)
  {
    EnabledIsSafe(word, w, a);
    match a
    case NewStack(k, s) => NewStackKeeps(word, w, k, s);
    case CreateCo(c, k, n) =>
      assert w.StackOk(word, k);
      CreateKeeps(word, w, c, k, Do(word, w, a).cos[c]);
    case Write(at, bytes) =>
      assert w.CoOk(word, w.running.value);
      WriteKeeps(word, w, w.running.value, at, bytes);
    case YieldAt(sp) =>
      assert w.CoOk(word, w.running.value);
      YieldKeeps(word, w, w.running.value, sp);
    case ExitAt(sp) => ExitKeeps(word, w, w.running.value, sp);
    case ResumeCo(c) => ResumeKeeps(word, w, c);
    case DestroyCo(c) => DestroyKeeps(word, w, c);
    case DropStack(k) => DropKeeps(word, w, k);
  }

  function NoWorld(): World { World(map[], map[], None, map[], map[], map[]) }

  /** The states of a run; what follows a failed assertion is anything. */
  ghost predicate IsRun(word: nat, run: seq<World>, actions: seq<Action>) {
    && |run| == |actions| + 1 && run[0] == NoWorld()
    && forall i {:trigger actions[i]} :: 0 <= i < |actions| ==>
         Enabled(word, run[i], actions[i])
             && (Safe(word, run[i], actions[i]) ==> run[i + 1] == Do(word, run[i], actions[i]))
  }

  /** In every state of every run all is well, and no assertion fails. */
  lemma {:induction false} RunIsSound(word: nat, run: seq<World>, actions: seq<Action>, i: nat)
    requires IsRun(word, run, actions) && i < |run|
    ensures run[i].Ok(word)
    ensures i < |actions| ==> Safe(word, run[i], actions[i]) && run[i + 1] == Do(word, run[i], actions[i])
  {
    if i > 0 {
      RunIsSound(word, run, actions, i - 1);
      ActionKeeps(word, run[i - 1], actions[i - 1]);
    }
    if i < |actions| {
      EnabledIsSafe(word, run[i], actions[i]);
    }
  }

  // ---- what a coroutine finds when it runs again -----------------------------------------------------------

  lemma ResumeFinds(word: nat, w: World, c: CoId)
    requires w.Ok(word) && Enabled(word, w, ResumeCo(c)) && Safe(word, w, ResumeCo(c))
    ensures var w', k := Resumed(word, w, c), w.cos[c].stack;
            && w'.running == Some(c) && c in w'.cos && w'.cos[c].stack == k && w'.cos[c].sp == w.cos[c].sp
               && k in w'.stacks
            && w'.stacks[k].Ok(word) && w'.stacks[k].InBounds(w.cos[c].sp)
            && c in w.private && w'.private == w.private && w'.stacks[k].Window(w.cos[c].sp) == w.private[c]
  {
    var k := w.cos[c].stack;
    assert w.StackOk(word, k) && w.CoOk(word, c);
    var s := w.stacks[k];
    if s.owner != Some(c) {
      if s.owner.Some? {
        assert OtherOn(w, k, s.owner.value, c);
        SaveKeeps(word, w, k, s.owner.value);
        RestoredWindow(word, Saved(w, k, s.owner.value), k, c);
      } else {
        RestoredWindow(word, w, k, c);
      }
    }
  }

  predicate SameLayout(s: ShareStack, s': ShareStack) {
    s'.ptr == s.ptr && |s'.mem| == |s.mem| && s'.high == s.high && s'.ret == s.ret && s'.limit == s.limit
  }

  /** Coroutine c, which does not run, is where it left off, with what it left. */
  ghost predicate Left(w: World, c: CoId, k: StackId, s: ShareStack, sp: int, bytes: Bytes) {
    && c in w.cos && w.cos[c].stack == k && w.cos[c].sp == sp && w.running != Some(c)
    && k in w.stacks && SameLayout(s, w.stacks[k]) && c in w.private && w.private[c] == bytes
  }

  predicate Concerns(a: Action, c: CoId) {
    a == ResumeCo(c) || a == DestroyCo(c)
  }

  lemma OthersLeaveIt(word: nat, w: World, a: Action, c: CoId, k: StackId, s: ShareStack, sp: int, bytes: Bytes)
    requires Enabled(word, w, a) && Safe(word, w, a) && Left(w, c, k, s, sp, bytes) && !Concerns(a, c)
    ensures Left(Do(word, w, a), c, k, s, sp, bytes)
  {
  }

  lemma {:induction false} StillLeft(word: nat, run: seq<World>, actions: seq<Action>, i: nat, j: nat, c: CoId,
                                     k: StackId, s: ShareStack, sp: int, bytes: Bytes)
    requires IsRun(word, run, actions) && i <= j < |run| && Left(run[i], c, k, s, sp, bytes)
    requires forall n :: i <= n < j ==> !Concerns(actions[n], c)
    ensures Left(run[j], c, k, s, sp, bytes)
  {
    if i < j {
      StillLeft(word, run, actions, i, j - 1, c, k, s, sp, bytes);
      RunIsSound(word, run, actions, j - 1);
      OthersLeaveIt(word, run[j - 1], actions[j - 1], c, k, s, sp, bytes);
    }
  }

  /**
    In any run: what a coroutine had on its stack above its stack pointer when it yielded is what it finds there
    when it is resumed, byte for byte at the same addresses, whatever ran on the stack in between.
   */
  lemma FoundAsLeft(word: nat, run: seq<World>, actions: seq<Action>, i: nat, j: nat, c: CoId, sp: int)
    requires IsRun(word, run, actions) && i < j < |actions|
    requires run[i].running == Some(c) && actions[i] == YieldAt(sp) && actions[j] == ResumeCo(c)
    requires forall n :: i < n < j ==> !Concerns(actions[n], c)
    ensures c in run[i].cos && run[i].cos[c].stack in run[i].stacks
    ensures var k := run[i].cos[c].stack;
            && run[j + 1].running == Some(c) && c in run[j + 1].cos && run[j + 1].cos[c].stack == k
               && run[j + 1].cos[c].sp == sp
            && k in run[j + 1].stacks && run[i].stacks[k].Ok(word) && SameLayout(run[i].stacks[k], run[j + 1].stacks[k])
            && run[i].stacks[k].InBounds(sp) && run[j + 1].stacks[k].Window(sp) == run[i].stacks[k].Window(sp)
  {
    RunIsSound(word, run, actions, i);
    RunIsSound(word, run, actions, j);
    assert run[i].CoOk(word, c);
    var k := run[i].cos[c].stack;
    var s := run[i].stacks[k];
    StillLeft(word, run, actions, i + 1, j, c, k, s, sp, s.Window(sp));
    ResumeFinds(word, run[j], c);
    ResumeChanges(word, run[j], c);
  }

  /** No coroutine has moved or ended. */
  ghost predicate SameCos(cos: map<CoId, Co>, cos': map<CoId, Co>) {
    cos'.Keys == cos.Keys && forall d :: d in cos ==>
        cos'[d].stack == cos[d].stack && cos'[d].sp == cos[d].sp && cos'[d].isEnd == cos[d].isEnd
  }

  /** Nothing has changed but stack k, whose layout is the same, and what coroutines have saved. */
  ghost predicate OnlyStack(w: World, w': World, k: StackId) {
    && SameCos(w.cos, w'.cos) && k in w.stacks && k in w'.stacks
    && w'.stacks == w.stacks[k := w'.stacks[k]] && SameLayout(w.stacks[k], w'.stacks[k])
  }

  lemma OnlyStackTwice(w: World, v: World, w': World, k: StackId)
    requires OnlyStack(w, v, k) && OnlyStack(v, w', k)
    ensures OnlyStack(w, w', k)
  {
  }

  lemma SaveChanges(w: World, k: StackId, o: CoId)
    requires k in w.stacks && o in w.cos && CanSave(w.stacks[k], w.cos[o])
    ensures OnlyStack(w, Saved(w, k, o), k)
  {
  }

  lemma RestoreChanges(word: nat, w: World, k: StackId, c: CoId)
    requires k in w.stacks && c in w.cos && CanRestore(word, w.stacks[k], w.cos[c])
    ensures OnlyStack(w, RestoredIn(word, w, k, c), k)
  {
  }

  lemma ResumeChanges(word: nat, w: World, c: CoId)
    requires Enabled(word, w, ResumeCo(c)) && Safe(word, w, ResumeCo(c))
    ensures OnlyStack(w, Resumed(word, w, c), w.cos[c].stack)
  {
    var k := w.cos[c].stack;
    var s := w.stacks[k];
    if s.owner == Some(c) {
      assert w.stacks == w.stacks[k := s];
    } else if s.owner.Some? {
      var v := Saved(w, k, s.owner.value);
      SaveChanges(w, k, s.owner.value);
      RestoreChanges(word, v, k, c);
      OnlyStackTwice(w, v, RestoredIn(word, v, k, c), k);
    } else {
      RestoreChanges(word, w, k, c);
    }
  }

  // ---- who runs, and where ------------------------------------------------------------------------------------

  /** Which coroutine runs, which there are, on which stacks and how far down, and which of them have ended. */
  datatype Roster = Roster(running: Option<CoId>, tops: map<StackId, int>, on: map<CoId, StackId>, sp: map<CoId, int>,
                           ended: set<CoId>)
  {
    function Act(a: Action): Roster {
      match a
      case NewStack(k, s) => this.(tops := tops[k := s.ret])
      case CreateCo(c, k, _) =>
        this.(on := on[c := k], sp := sp[c := if k in tops then tops[k] else 0], ended := ended - {c})
      case Write(_, _) => this
      case YieldAt(at) => if running.Some? then this.(running := None, sp := sp[running.value := at]) else this
      case ExitAt(at) =>
        if running.Some? then
          this.(running := None, sp := sp[running.value := at], ended := ended + {running.value})
        else this
      case ResumeCo(c) => this.(running := Some(c))
      case DestroyCo(c) => this.(on := on - {c}, sp := sp - {c}, ended := ended - {c})
      case DropStack(k) => this.(tops := tops - {k})
    }
  }

  function RosterAfter(actions: seq<Action>): Roster {
    if |actions| == 0 then Roster(None, map[], map[], map[], {})
    else RosterAfter(actions[..|actions| - 1]).Act(actions[|actions| - 1])
  }

  function RosterOf(w: World): Roster {
    Roster(w.running, map k | k in w.stacks :: w.stacks[k].ret, map c | c in w.cos :: w.cos[c].stack,
           map c | c in w.cos :: w.cos[c].sp, set c | c in w.cos && w.cos[c].isEnd)
  }

  lemma ResumeKeepsRoster(word: nat, w: World, c: CoId)
    requires w.Ok(word) && Enabled(word, w, ResumeCo(c)) && Safe(word, w, ResumeCo(c))
    ensures RosterOf(Resumed(word, w, c)) == RosterOf(w).(running := Some(c))
  {
    ResumeFinds(word, w, c);
    ResumeChanges(word, w, c);
    var v, v' := RosterOf(w), RosterOf(Resumed(word, w, c));
    assert v'.tops == v.tops && v'.on == v.on && v'.sp == v.sp && v'.ended == v.ended;
  }

  lemma StepOfStacks(word: nat, w: World, a: Action)
    requires w.Ok(word) && Enabled(word, w, a) && Safe(word, w, a) && !a.ResumeCo?
    ensures RosterOf(Do(word, w, a)).tops == RosterOf(w).Act(a).tops
    ensures RosterOf(Do(word, w, a)).running == RosterOf(w).Act(a).running
  {
  }

  lemma StepOfPlaces(word: nat, w: World, a: Action)
    requires w.Ok(word) && Enabled(word, w, a) && Safe(word, w, a) && !a.ResumeCo?
    ensures RosterOf(Do(word, w, a)).on == RosterOf(w).Act(a).on
  {
  }

  lemma StepOfPointers(word: nat, w: World, a: Action)
    requires w.Ok(word) && Enabled(word, w, a) && Safe(word, w, a) && !a.ResumeCo?
    ensures RosterOf(Do(word, w, a)).sp == RosterOf(w).Act(a).sp
  {
  }

  lemma StepOfEnds(word: nat, w: World, a: Action)
    requires w.Ok(word) && Enabled(word, w, a) && Safe(word, w, a) && !a.ResumeCo?
    ensures RosterOf(Do(word, w, a)).ended == RosterOf(w).Act(a).ended
  {
  }

  lemma StepIsRoster(word: nat, w: World, a: Action)
    requires w.Ok(word) && Enabled(word, w, a) && Safe(word, w, a)
    ensures RosterOf(Do(word, w, a)) == RosterOf(w).Act(a)
  {
    if a.ResumeCo? {
      ResumeKeepsRoster(word, w, a.c);
    } else {
      StepOfStacks(word, w, a);
      StepOfPlaces(word, w, a);
      StepOfPointers(word, w, a);
      StepOfEnds(word, w, a);
      var v, v' := RosterOf(w).Act(a), RosterOf(Do(word, w, a));
      assert v == Roster(v.running, v.tops, v.on, v.sp, v.ended);
    }
  }

  /**
    In any run, who runs is who was resumed last, unless it has yielded or ended since; and every coroutine that was
    created and not destroyed is on its stack, with its stack pointer where it left it.
   */
  lemma {:induction false} RunIsRoster(word: nat, run: seq<World>, actions: seq<Action>, i: nat)
    requires IsRun(word, run, actions) && i < |run|
    ensures RosterAfter(actions[..i]) == RosterOf(run[i])
  {
    if i > 0 {
      RunIsRoster(word, run, actions, i - 1);
      RunIsSound(word, run, actions, i - 1);
      assert actions[..i][..i - 1] == actions[..i - 1];
      StepIsRoster(word, run[i - 1], actions[i - 1]);
    } else {
      var v := RosterOf(run[0]);
      assert v.tops == map[] && v.on == map[] && v.sp == map[] && v.ended == {};
    }
  }

  // ---- as on stacks of their own ---------------------------------------------------------------------------

  /** Coroutines with a memory of their own each: nothing is shared and nothing is copied. */
  datatype Ideal = Ideal(running: Option<CoId>, own: map<CoId, Memory>) {
    function Mine(): Memory {
      if running.Some? && running.value in own then own[running.value] else map[]
    }

    function Act(a: Action): Ideal {
      match a
      case CreateCo(c, _, _) => Ideal(running, own[c := map[]])
      case Write(at, bytes) => if running.Some? then Ideal(running, own[running.value := Written(Mine(), at, bytes)])
          else this
      case YieldAt(sp) => if running.Some? then Ideal(None, own[running.value := Above(Mine(), sp)]) else this
      case ExitAt(_) => Ideal(None, own)
      case ResumeCo(c) => Ideal(Some(c), own)
      case _ => this
    }
  }

  function IdealAfter(actions: seq<Action>): Ideal {
    if |actions| == 0 then Ideal(None, map[]) else IdealAfter(actions[..|actions| - 1]).Act(actions[|actions| - 1])
  }

  lemma {:induction false} RunIsIdeal(word: nat, run: seq<World>, actions: seq<Action>, i: nat)
    requires IsRun(word, run, actions) && i < |run|
    ensures IdealAfter(actions[..i]) == Ideal(run[i].running, run[i].own)
  {
    if i > 0 {
      RunIsIdeal(word, run, actions, i - 1);
      RunIsSound(word, run, actions, i - 1);
      assert actions[..i][..i - 1] == actions[..i - 1];
    }
  }

  /**
    In any state of any run: the byte that the running coroutine finds at an address on the shared stack is the
    one it would find on a stack of its own, wherever it wrote and has not given up the memory since.
   */
  lemma ReadsAsAlone(word: nat, run: seq<World>, actions: seq<Action>, i: nat, a: int)
    requires IsRun(word, run, actions) && i < |run|
    requires a in IdealAfter(actions[..i]).Mine()
    ensures run[i].RunsOn(a, a + 1)
    ensures var s := run[i].stacks[run[i].cos[run[i].running.value].stack];
            0 <= a - s.ptr < |s.mem| && s.mem[a - s.ptr] == IdealAfter(actions[..i]).Mine()[a]
  {
    RunIsIdeal(word, run, actions, i);
    RunIsSound(word, run, actions, i);
    assert run[i].CoOk(word, run[i].running.value) && run[i].OwnOk(run[i].running.value);
  }

  // ---- a coroutine alone on its stack ----------------------------------------------------------------------

  /** How many coroutines were created on stack k since it was made. */
  function Creations(actions: seq<Action>, k: StackId): nat {
    if |actions| == 0 then 0
    else
      var before, a := Creations(actions[..|actions| - 1], k), actions[|actions| - 1];
      if a.NewStack? && a.k == k then 0 else if a.CreateCo? && a.k == k then before + 1 else before
  }

  lemma {:induction false} UsersCounted(word: nat, run: seq<World>, actions: seq<Action>, i: nat, k: StackId)
    requires IsRun(word, run, actions) && i < |run| && k in run[i].stacks
    ensures run[i].UsersOf(k) == Creations(actions[..i], k)
  {
    if i > 0 {
      RunIsSound(word, run, actions, i - 1);
      assert actions[..i][..i - 1] == actions[..i - 1];
      if k in run[i - 1].stacks {
        UsersCounted(word, run, actions, i - 1, k);
      }
    }
  }

  /** In any run, a coroutine that is the only one created on its stack is never copied in or out. */
  lemma AloneIsNeverCopied(word: nat, run: seq<World>, actions: seq<Action>, i: nat, c: CoId)
    requires IsRun(word, run, actions) && i < |run| && c in run[i].cos
    requires Creations(actions[..i], run[i].cos[c].stack) == 1
    ensures run[i].cos[c].ctSave == 0 && run[i].cos[c].ctRestore == 0 && run[i].cos[c].validSz == 0
  {
    RunIsSound(word, run, actions, i);
    var k := run[i].cos[c].stack;
    assert run[i].CoOk(word, c) && run[i].AloneOk(c) && run[i].StackOk(word, k);
    UsersCounted(word, run, actions, i, k);
  }

  // ---- the counts of copies --------------------------------------------------------------------------------

  /** The action has coroutine c's bytes copied out of its stack: another one on it is resumed. */
  predicate CopiesOut(w: World, a: Action, c: CoId) {
    && a.ResumeCo? && a.c != c && a.c in w.cos && w.cos[a.c].stack in w.stacks && c in w.cos
    && w.stacks[w.cos[a.c].stack].owner == Some(c) && w.stacks[w.cos[a.c].stack].ret > w.cos[c].sp
  }

  /** The action has coroutine c's bytes copied back: it is resumed, and the stack was not its own any more. */
  predicate CopiesIn(w: World, a: Action, c: CoId) {
    && a == ResumeCo(c) && c in w.cos && w.cos[c].stack in w.stacks
    && w.stacks[w.cos[c].stack].owner != Some(c) && w.stacks[w.cos[c].stack].ret > w.cos[c].sp
  }

  function CountOut(run: seq<World>, actions: seq<Action>, i: nat, c: CoId): nat
    requires i <= |actions| < |run|
  {
    if i == 0 || (actions[i - 1].CreateCo? && actions[i - 1].c == c) then 0
    else CountOut(run, actions, i - 1, c) + if CopiesOut(run[i - 1], actions[i - 1], c) then 1 else 0
  }

  function CountIn(run: seq<World>, actions: seq<Action>, i: nat, c: CoId): nat
    requires i <= |actions| < |run|
  {
    if i == 0 || (actions[i - 1].CreateCo? && actions[i - 1].c == c) then 0
    else CountIn(run, actions, i - 1, c) + if CopiesIn(run[i - 1], actions[i - 1], c) then 1 else 0
  }

  lemma StepCounts(word: nat, w: World, a: Action, c: CoId)
    requires w.Ok(word) && Enabled(word, w, a) && Safe(word, w, a) && c in Do(word, w, a).cos
    requires !(a.CreateCo? && a.c == c)
    ensures c in w.cos
    ensures Do(word, w, a).cos[c].ctSave == w.cos[c].ctSave + if CopiesOut(w, a, c) then 1 else 0
    ensures Do(word, w, a).cos[c].ctRestore == w.cos[c].ctRestore + if CopiesIn(w, a, c) then 1 else 0
  {
    if a.ResumeCo? {
      assert w.CoOk(word, a.c) && w.StackOk(word, w.cos[a.c].stack);
    }
  }

  /** In any run, ct_save and ct_restore count the copies out of and back to the stack. */
  lemma {:induction false} CopiesAreCounted(word: nat, run: seq<World>, actions: seq<Action>, i: nat, c: CoId)
    requires IsRun(word, run, actions) && i < |run| && c in run[i].cos
    ensures run[i].cos[c].ctSave == CountOut(run, actions, i, c)
    ensures run[i].cos[c].ctRestore == CountIn(run, actions, i, c)
  {
    if i > 0 {
      RunIsSound(word, run, actions, i - 1);
      var w, a := run[i - 1], actions[i - 1];
      if !(a.CreateCo? && a.c == c) {
        StepCounts(word, w, a, c);
        CopiesAreCounted(word, run, actions, i - 1, c);
      }
    }
  }
}
