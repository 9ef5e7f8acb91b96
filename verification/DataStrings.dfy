/** common/alloc.c: data strings, which share reference-counted buffers. */
module DataStrings {
  import opened Wrappers
  import opened Bytes

  /** A buffer with its reference count, its bytes, and how often it was freed. */
  datatype Buffer = Buffer(refcnt: int, data: seq<byte>, frees: nat)

  /** Where the bytes of a string are: nowhere, in a buffer, or in memory that is never freed. */
  datatype Pointer = NULL | In(buffer: nat) | Fixed(bytes: seq<byte>)

  datatype DataString = DataString(buffer: Option<nat>, data: Pointer, len: nat, terminated: bool)

  const EMPTY := DataString(None, NULL, 0, false)

  type Heap = map<nat, Buffer>
  type Strings = map<nat, DataString>

  // ---- Holders ----

  function HolderSet(ss: Strings, b: nat): (r: set<nat>) {
    set s | s in ss && ss[s].buffer == Some(b)
  }

  /** How many strings hold a buffer. */
  function Holders(ss: Strings, b: nat): (n: nat) {
    |HolderSet(ss, b)|
  }

  function Holds(ss: Strings, s: nat, b: nat): (n: nat) {
    if s in ss && ss[s].buffer == Some(b) then 1 else 0
  }

  lemma {:induction false} HoldersUpdate(ss: Strings, s: nat, d: DataString, b: nat)
    ensures Holders(ss[s := d], b) == Holders(ss, b) - Holds(ss, s, b) + if d.buffer == Some(b) then 1 else 0
  {
    var all, all' := HolderSet(ss, b), HolderSet(ss[s := d], b);
    if d.buffer == Some(b) {
      assert all' == all + {s};
    } else {
      assert all' == all - {s};
    }
  }

  lemma {:induction false} HoldersRemove(ss: Strings, s: nat, b: nat)
    requires s in ss && ss[s].buffer == None
    ensures Holders(ss - {s}, b) == Holders(ss, b)
  {
    assert HolderSet(ss - {s}, b) == HolderSet(ss, b);
  }

  // ---- The invariant ----

  /** A live buffer counts its holders, of which it has at least one; any other was freed once and has none. */
  predicate Counted(h: Heap, ss: Strings, b: nat)
    requires b in h
  {
    if h[b].frees == 0 then h[b].refcnt == Holders(ss, b) > 0
    else h[b].frees == 1 && h[b].refcnt == 0 == Holders(ss, b)
  }

  /** The string points into the buffer it holds, or outside of all buffers. */
  predicate Placed(h: Heap, d: DataString) {
    && (d.buffer.Some? ==> d.buffer.value in h && d.data == In(d.buffer.value) && d.len <= |h[d.buffer.value].data|)
    && (d.buffer.None? ==> !d.data.In? && (d.data.Fixed? ==> d.len <= |d.data.bytes|))
  }

  predicate Sound(h: Heap, ss: Strings) {
    && (forall b :: b in h ==> Counted(h, ss, b))
    && forall s :: s in ss ==> Placed(h, ss[s])
  }

  /** A buffer that a string holds is live. */
  lemma {:induction false} HeldIsLive(h: Heap, ss: Strings, s: nat)
    requires Sound(h, ss) && s in ss && ss[s].buffer.Some?
    ensures ss[s].buffer.value in h && h[ss[s].buffer.value].frees == 0
  {
    assert s in HolderSet(ss, ss[s].buffer.value);
  }

  /** One reference more, and one less: the last one frees the buffer. */
  function Referenced(h: Heap, b: nat): (h': Heap)
    requires b in h
  {
    h[b := h[b].(refcnt := h[b].refcnt + 1)]
  }

  function Dereferenced(h: Heap, b: nat): (h': Heap)
    requires b in h
  {
    var n := h[b].refcnt - 1;
    h[b := h[b].(refcnt := n, frees := if n == 0 then h[b].frees + 1 else h[b].frees)]
  }

  /** The bytes of a string. */
  function Content(h: Heap, d: DataString): (r: seq<byte>)
    requires Placed(h, d)
  {
    match d.data
    case NULL => []
    case In(b) => h[b].data[..d.len]
    case Fixed(bytes) => bytes[..d.len]
  }

  // ---- What the operations do ----

  function Forgotten(h: Heap, d: DataString): (h': Heap)
    requires Placed(h, d)
  {
    if d.buffer.Some? then Dereferenced(h, d.buffer.value) else h
  }

  lemma {:induction false} ForgetSound(h: Heap, ss: Strings, s: nat)
    requires Sound(h, ss) && s in ss
    ensures Sound(Forgotten(h, ss[s]), ss[s := EMPTY])
  {
    var h', ss' := Forgotten(h, ss[s]), ss[s := EMPTY];
    forall b | b in h' ensures Counted(h', ss', b) {
      HoldersUpdate(ss, s, EMPTY, b);
      assert Counted(h, ss, b);
      if ss[s].buffer == Some(b) { assert s in HolderSet(ss, b); }
    }
  }

  function Copied(h: Heap, d: DataString): (h': Heap)
    requires Placed(h, d)
  {
    if d.buffer.Some? then Referenced(h, d.buffer.value) else h
  }

  /** Copying keeps the counts exactly when the target holds no buffer. */
  lemma {:induction false} CopySound(h: Heap, ss: Strings, dest: nat, src: nat)
    requires Sound(h, ss) && dest in ss && src in ss
    ensures Sound(Copied(h, ss[src]), ss[dest := ss[src]]) <==> ss[dest].buffer == None
  {
    var h', ss' := Copied(h, ss[src]), ss[dest := ss[src]];
    forall b | b in h' && ss[dest].buffer == None ensures Counted(h', ss', b) {
      HoldersUpdate(ss, dest, ss[src], b);
      assert Counted(h, ss, b);
      if ss[src].buffer == Some(b) { assert src in HolderSet(ss, b); }
    }
    if ss[dest].buffer.Some? {
      var b := ss[dest].buffer.value;
      HoldersUpdate(ss, dest, ss[src], b);
      assert Counted(h, ss, b) && dest in HolderSet(ss, b);
      if ss[src].buffer == Some(b) { assert src in HolderSet(ss, b); }
      assert !Counted(h', ss', b);
    }
  }

  /** The length without a final zero byte. */
  function CopyLen(src: seq<byte>): (n: nat)
    ensures n <= |src|
  {
    if |src| > 0 && src[|src| - 1] == 0 then |src| - 1 else |src|
  }

  function Allocated(h: Heap, b: nat, src: seq<byte>): (h': Heap) {
    h[b := Buffer(1, src[..CopyLen(src)] + [0], 0)]
  }

  function NewString(b: nat, src: seq<byte>): (d: DataString) {
    DataString(Some(b), In(b), CopyLen(src), true)
  }

  /** Making a new string keeps the counts exactly when the old one holds no buffer. */
  lemma {:induction false} NewSound(h: Heap, ss: Strings, s: nat, b: nat, src: seq<byte>)
    requires Sound(h, ss) && s in ss && b !in h
    ensures Sound(Allocated(h, b, src), ss[s := NewString(b, src)]) <==> ss[s].buffer == None
  {
    var h', d := Allocated(h, b, src), NewString(b, src);
    var ss' := ss[s := d];
    assert HolderSet(ss, b) == {} by { assert forall x :: x in ss && ss[x].buffer == Some(b) ==> Placed(h, ss[x]); }
    forall c | c in h' && ss[s].buffer == None ensures Counted(h', ss', c) {
      HoldersUpdate(ss, s, d, c);
      if c != b { assert Counted(h, ss, c); }
    }
    if ss[s].buffer.Some? {
      var c := ss[s].buffer.value;
      HoldersUpdate(ss, s, d, c);
      assert Placed(h, ss[s]) && Counted(h, ss, c) && s in HolderSet(ss, c);
      assert !Counted(h', ss', c);
    }
  }

  // ---- The operations ----

  /** The operations, with the address of memory that is allocated, or of a local string. */
  datatype Op =
    | New(s: nat, src: Option<seq<byte>>, at: nat)
    | Copy(dest: nat, from: nat)
    | Forget(s: nat)
    | Terminate(s: nat, temp: nat, at: nat)

  /** Memory: buffers, and the strings that hold them. */
  class Memory {
    var heap: Heap
    var strings: Strings

    constructor (strings: Strings)
      requires forall s :: s in strings ==> strings[s] == EMPTY
      ensures this.strings == strings && heap == map[] && Valid()
    {
      heap, this.strings := map[], strings;
    }

    predicate Valid()
      reads this
    {
      Sound(heap, strings)
    }

    /** Lets the string hold the buffer. */
    method BufferReference(s: nat, b: nat)
      requires s in strings && b in heap
      modifies this
      ensures heap == Referenced(old(heap), b) && strings == old(strings)[s := old(strings[s]).(buffer := Some(b))]
    {
      strings := strings[s := strings[s].(buffer := Some(b))];
      heap := heap[b := heap[b].(refcnt := heap[b].refcnt + 1)];
    }

    /** Lets the string give up its buffer, which is freed when no reference is left. */
    method BufferDereference(s: nat) returns (ok: bool)
      requires Valid() && s in strings
      modifies this
      ensures ok == old(strings[s]).buffer.Some?
      ensures heap == Forgotten(old(heap), old(strings[s]))
      ensures strings == old(strings)[s := old(strings[s]).(buffer := None)]
    {
      if strings[s].buffer.None? {
        assert strings == strings[s := strings[s].(buffer := None)];
        return false;
      }
      var b := strings[s].buffer.value;
      HeldIsLive(heap, strings, s);
      assert Counted(heap, strings, b);
      heap := heap[b := heap[b].(refcnt := heap[b].refcnt - 1)];
      if heap[b].refcnt == 0 {
        heap := heap[b := heap[b].(frees := heap[b].frees + 1)];
      } else if heap[b].refcnt < 0 {
        assert false;
      }
      strings := strings[s := strings[s].(buffer := None)];
      return true;
    }

    /** Makes a terminated string out of some bytes. A buffer that the string holds is not given up but lost. */
    method DataStringNew(s: nat, src: Option<seq<byte>>, at: nat) returns (ok: bool)
      requires Valid() && s in strings && at !in heap
      modifies this
      ensures ok == src.Some? && (Valid() <==> !ok || old(strings[s]).buffer == None)
      ensures ok ==> heap == Allocated(old(heap), at, src.value)
      ensures ok ==> strings == old(strings)[s := NewString(at, src.value)]
      ensures !ok ==> heap == old(heap) && strings == old(strings)
    {
      if src.None? { return false; }
      NewSound(heap, strings, s, at, src.value);
      ghost var h', ss' := Allocated(heap, at, src.value), strings[s := NewString(at, src.value)];
      strings := strings[s := EMPTY];
      var bytes := src.value;
      var copyLen := if |bytes| > 0 && bytes[|bytes| - 1] == 0 then |bytes| - 1 else |bytes|;
      PutTwice(heap, at, Buffer(0, bytes[..copyLen] + [0], 0), Buffer(1, bytes[..copyLen] + [0], 0));
      heap := heap[at := Buffer(0, bytes[..copyLen] + [0], 0)];
      BufferReference(s, at);
      assert heap == h';
      strings := strings[s := DataString(Some(at), In(at), copyLen, true)];
      assert strings == ss';
      return true;
    }

    /** Lets two strings share their bytes. A buffer that the target holds is not given up but lost. */
    method DataStringCopy(dest: nat, from: nat)
      requires Valid() && dest in strings && from in strings
      modifies this
      ensures Valid() <==> old(strings[dest]).buffer == None
      ensures heap == Copied(old(heap), old(strings[from])) && strings == old(strings)[dest := old(strings[from])]
    {
      CopySound(heap, strings, dest, from);
      var d := strings[from];
      ghost var h', ss' := Copied(heap, d), strings[dest := d];
      if d.buffer.Some? { BufferReference(dest, d.buffer.value); }
      strings := strings[dest := strings[dest].(buffer := d.buffer, data := d.data, terminated := d.terminated,
                                                len := d.len)];
      assert heap == h' && strings == ss';
    }

    /** Empties a string. */
    method DataStringForget(s: nat)
      requires Valid() && s in strings
      modifies this
      ensures Valid() && heap == Forgotten(old(heap), old(strings[s])) && strings == old(strings)[s := EMPTY]
    {
      ForgetSound(heap, strings, s);
      ghost var h', ss' := Forgotten(heap, strings[s]), strings[s := EMPTY];
      if strings[s].buffer.Some? { var _ := BufferDereference(s); }
      strings := strings[s := EMPTY];
      assert heap == h' && strings == ss';
    }

    /** Makes a string terminated. One that is not is replaced by one that is. */
    method DataStringTerminate(s: nat, temp: nat, at: nat) returns (ok: bool)
      requires Valid() && s in strings && temp !in strings && at !in heap
      modifies this
      ensures Valid() && ok == (old(strings[s]).terminated || old(strings[s]).data != NULL)
      ensures strings == old(strings)[s := Terminated(old(strings[s]), at, Content(old(heap), old(strings[s])))]
      ensures heap == if ok && !old(strings[s]).terminated
                      then Forgotten(Allocated(old(heap), at, Content(old(heap), old(strings[s]))), old(strings[s]))
                      else old(heap)
    {
      ok := true;
      if strings[s].terminated {
        assert strings == strings[s := strings[s]];
      } else {
        ok := Replace(s, temp, at);
      }
    }

    /** The local string keeps the bytes alive until they are copied. */
    method Replace(s: nat, temp: nat, at: nat) returns (ok: bool)
      requires Valid() && s in strings && temp !in strings && at !in heap && !strings[s].terminated
      modifies this
      ensures Valid() && ok == (old(strings[s]).data != NULL)
      ensures strings == old(strings)[s := Terminated(old(strings[s]), at, Content(old(heap), old(strings[s])))]
      ensures heap == if ok
                      then Forgotten(Allocated(old(heap), at, Content(old(heap), old(strings[s]))), old(strings[s]))
                      else old(heap)
    {
      ghost var h0: Heap, ss0: Strings, d := heap, strings, strings[s];
      PutUnheld(heap, strings, temp);
      strings := strings[temp := EMPTY];
      DataStringCopy(temp, s);
      DataStringForget(s);
      UndoCopy(h0, ss0, s);
      ghost var ss1: Strings := ss0[temp := d];
      assert heap == h0 && strings == ss1[s := EMPTY];
      var t := strings[temp];
      var bytes := if t.data.NULL? then None else Some(Content(heap, t));
      ok := DataStringNew(s, bytes, at);
      DataStringForget(temp);
      TakeUnheld(heap, strings, temp);
      strings := strings - {temp};
      LocalGone(ss0, s, temp, d, Terminated(d, at, Content(h0, d)));
    }

    function View(): (m: Mem)
      reads this
    {
      Mem(heap, strings)
    }

    /** Performs one operation. */
    method Perform(op: Op)
      requires Valid() && Allowed(View(), op)
      modifies this
      ensures Valid() && View() == After(old(View()), op)
    {
      match op
      case New(s, src, at) => var _ := DataStringNew(s, src, at);
      case Copy(dest, from) => DataStringCopy(dest, from);
      case Forget(s) => DataStringForget(s);
      case Terminate(s, temp, at) => var _ := DataStringTerminate(s, temp, at);
    }
  }

  // ---- Runs ----

  datatype Mem = Mem(heap: Heap, strings: Strings)

  /** The operation is about a string that exists, allocates unused memory, and overwrites only a string that holds no
      buffer. */
  predicate Allowed(m: Mem, op: Op) {
    match op
    case New(s, _, at) => s in m.strings && at !in m.heap && m.strings[s].buffer == None
    case Copy(dest, from) => dest in m.strings && from in m.strings && m.strings[dest].buffer == None
    case Forget(s) => s in m.strings
    case Terminate(s, temp, at) => s in m.strings && temp !in m.strings && at !in m.heap
  }

  /** The string that an operation changes. */
  function Target(op: Op): (s: nat) {
    match op
    case New(s, _, _) => s
    case Copy(dest, _) => dest
    case Forget(s) => s
    case Terminate(s, _, _) => s
  }

  function NewTarget(m: Mem, op: Op): (d: DataString)
    requires Sound(m.heap, m.strings) && Allowed(m, op)
  {
    match op
    case New(s, src, at) => if src.None? then m.strings[s] else NewString(at, src.value)
    case Copy(_, from) => m.strings[from]
    case Forget(_) => EMPTY
    case Terminate(s, _, at) => Terminated(m.strings[s], at, Content(m.heap, m.strings[s]))
  }

  function NewHeap(m: Mem, op: Op): (h: Heap)
    requires Sound(m.heap, m.strings) && Allowed(m, op)
  {
    match op
    case New(_, src, at) => if src.None? then m.heap else Allocated(m.heap, at, src.value)
    case Copy(_, from) => Copied(m.heap, m.strings[from])
    case Forget(s) => Forgotten(m.heap, m.strings[s])
    case Terminate(s, _, at) =>
      var d := m.strings[s];
      if d.terminated || d.data.NULL? then m.heap else Forgotten(Allocated(m.heap, at, Content(m.heap, d)), d)
  }

  function After(m: Mem, op: Op): (m': Mem)
    requires Sound(m.heap, m.strings) && Allowed(m, op)
  {
    Mem(NewHeap(m, op), m.strings[Target(op) := NewTarget(m, op)])
  }

  lemma {:induction false} AfterSound(m: Mem, op: Op)
    requires Sound(m.heap, m.strings) && Allowed(m, op)
    ensures Sound(After(m, op).heap, After(m, op).strings)
  {
    match op
    case New(s, src, at) =>
      if src.None? { assert m.strings[s := m.strings[s]] == m.strings; }
      else { NewSound(m.heap, m.strings, s, at, src.value); }
    case Copy(dest, from) => CopySound(m.heap, m.strings, dest, from);
    case Forget(s) => ForgetSound(m.heap, m.strings, s);
    case Terminate(s, _, at) => TerminateSound(m, s, at);
  }

  /** Forgetting a string and making a new one in its place, in either order on the heap. */
  lemma {:induction false} TerminateSound(m: Mem, s: nat, at: nat)
    requires Sound(m.heap, m.strings) && s in m.strings && at !in m.heap
    ensures var d := m.strings[s];
            var ss: Strings := m.strings[s := Terminated(d, at, Content(m.heap, d))];
            Sound(if d.terminated || d.data.NULL? then m.heap
                  else Forgotten(Allocated(m.heap, at, Content(m.heap, d)), d), ss)
  {
    var d := m.strings[s];
    var bytes := Content(m.heap, d);
    if d.terminated {
      assert m.strings[s := d] == m.strings;
    } else if d.data.NULL? {
      ForgetSound(m.heap, m.strings, s);
    } else {
      ForgetSound(m.heap, m.strings, s);
      NewSound(Forgotten(m.heap, d), m.strings[s := EMPTY], s, at, bytes);
      PutTwice(m.strings, s, EMPTY, NewString(at, bytes));
      EitherOrder(m.heap, d, at, bytes);
    }
  }

  lemma {:induction false} EitherOrder(h: Heap, d: DataString, at: nat, bytes: seq<byte>)
    requires Placed(h, d) && at !in h
    ensures Placed(Allocated(h, at, bytes), d)
    ensures Allocated(Forgotten(h, d), at, bytes) == Forgotten(Allocated(h, at, bytes), d)
  {
  }

  // ---- What the strings say ----

  /** The bytes `r` are `src` without a zero byte at its end. */
  predicate WithoutFinalZero(src: seq<byte>, r: seq<byte>) {
    r + [0] == src || (r == src && (src == [] || src[|src| - 1] != 0))
  }

  /** A new string says what it was made of, but for a zero byte at the end, and a zero byte follows it. */
  lemma {:induction false} NewContent(h: Heap, b: nat, src: seq<byte>)
    ensures var h', d := Allocated(h, b, src), NewString(b, src);
            && Placed(h', d) && d.terminated && WithoutFinalZero(src, Content(h', d))
            && h'[b].data == Content(h', d) + [0]
  {
    if |src| > 0 && src[|src| - 1] == 0 { assert src == src[..|src| - 1] + [0]; }
  }

  /** What the string says that an operation is about. Only bytes that end with a zero byte are not taken as they
      are. */
  predicate Says(m: Mem, op: Op, r: seq<byte>)
    requires Sound(m.heap, m.strings) && Allowed(m, op)
  {
    match op
    case New(s, src, _) => if src.Some? then WithoutFinalZero(src.value, r) else r == Content(m.heap, m.strings[s])
    case Copy(_, from) => r == Content(m.heap, m.strings[from])
    case Forget(_) => r == []
    case Terminate(s, _, _) =>
      var old_ := Content(m.heap, m.strings[s]);
      if m.strings[s].terminated then r == old_ else WithoutFinalZero(old_, r)
  }

  lemma {:induction false} AfterSays(m: Mem, op: Op)
    requires Sound(m.heap, m.strings) && Allowed(m, op)
    ensures var m' := After(m, op);
            Placed(m'.heap, m'.strings[Target(op)]) && Says(m, op, Content(m'.heap, m'.strings[Target(op)]))
  {
    AfterSound(m, op);
    match op
    case New(s, src, at) => if src.Some? { NewContent(m.heap, at, src.value); }
    case Terminate(s, _, at) =>
      var d := m.strings[s];
      NewContent(m.heap, at, Content(m.heap, d));
      if !d.terminated && !d.data.NULL? { TerminatedSays(m.heap, d, at); }
    case _ =>
  }

  lemma {:induction false} TerminatedSays(h: Heap, d: DataString, at: nat)
    requires Placed(h, d) && at !in h && !d.terminated && !d.data.NULL?
    ensures var bytes := Content(h, d);
            var h', d' := Forgotten(Allocated(h, at, bytes), d), Terminated(d, at, bytes);
            Placed(h', d') && Content(h', d') == Content(Allocated(h, at, bytes), NewString(at, bytes))
  {
  }

  /** No operation changes what any other string says. */
  lemma {:induction false} OthersSayTheSame(m: Mem, op: Op, s: nat)
    requires Sound(m.heap, m.strings) && Allowed(m, op) && s in m.strings && s != Target(op)
    ensures var m' := After(m, op);
            && s in m'.strings && m'.strings[s] == m.strings[s] && Placed(m'.heap, m'.strings[s])
            && Content(m'.heap, m'.strings[s]) == Content(m.heap, m.strings[s])
  {
    AfterSound(m, op);
  }

  /** A step takes at most one holder from a buffer, loses no buffer, and never takes back that one was freed. */
  lemma {:induction false} StepCounts(m: Mem, op: Op, b: nat)
    requires Sound(m.heap, m.strings) && Allowed(m, op) && b in m.heap
    ensures var m' := After(m, op);
            && Holders(m'.strings, b) >= Holders(m.strings, b) - 1
            && b in m'.heap && m'.heap[b].frees >= m.heap[b].frees
  {
    HoldersUpdate(m.strings, Target(op), NewTarget(m, op), b);
  }

  predicate Follows(m: Mem, op: Op, m': Mem) {
    Allowed(m, op) && (Sound(m.heap, m.strings) ==> m' == After(m, op))
  }

  predicate Run(ms: seq<Mem>, ops: seq<Op>) {
    |ms| == |ops| + 1 && forall i :: 0 <= i < |ops| ==> Follows(ms[i], ops[i], ms[i + 1])
  }

  lemma {:induction false} RunSound(ms: seq<Mem>, ops: seq<Op>)
    requires Run(ms, ops) && Sound(ms[0].heap, ms[0].strings)
    ensures forall i :: 0 <= i < |ms| ==> Sound(ms[i].heap, ms[i].strings)
    decreases |ops|
  {
    if ops != [] {
      var n := |ops| - 1;
      RunSound(ms[..n + 1], ops[..n]);
      assert ms[..n + 1][n] == ms[n] && Follows(ms[n], ops[n], ms[n + 1]);
      AfterSound(ms[n], ops[n]);
    }
  }

  /** Over any run every count equals the number of holders; and a buffer is freed exactly in the step in which its last
      holder lets go, and never again. */
  lemma {:induction false} RunOwnership(ms: seq<Mem>, ops: seq<Op>, i: nat, b: nat)
    requires Run(ms, ops) && Sound(ms[0].heap, ms[0].strings) && i < |ops| && b in ms[i].heap
    ensures Counted(ms[i].heap, ms[i].strings, b)
    ensures b in ms[i + 1].heap && ms[i].heap[b].frees <= ms[i + 1].heap[b].frees <= 1
    ensures ms[i].heap[b].frees < ms[i + 1].heap[b].frees <==>
            Holders(ms[i].strings, b) == 1 && Holders(ms[i + 1].strings, b) == 0
  {
    RunSound(ms, ops);
    assert Follows(ms[i], ops[i], ms[i + 1]);
    StepCounts(ms[i], ops[i], b);
    assert Counted(ms[i].heap, ms[i].strings, b) && Counted(ms[i + 1].heap, ms[i + 1].strings, b);
  }

  lemma LocalGone(ss: Strings, s: nat, temp: nat, d: DataString, x: DataString)
    requires s in ss && temp !in ss
    ensures var a: Strings := ss[temp := d]; var b: Strings := a[s := EMPTY];
            var c: Strings := b[s := x]; c[temp := EMPTY] - {temp} == ss[s := x] && (x == EMPTY ==> b == c)
  {
  }

  lemma PutTwice<V>(m: map<nat, V>, k: nat, v: V, v': V)
    ensures m[k := v][k := v'] == m[k := v']
  {
  }

  /** The string after termination; one without bytes becomes empty. */
  function Terminated(d: DataString, at: nat, bytes: seq<byte>): (r: DataString) {
    if d.terminated then d else if d.data.NULL? then EMPTY else NewString(at, bytes)
  }

  /** Copying a string and forgetting the original leaves the buffers as they were: the bytes stay alive. */
  lemma {:induction false} UndoCopy(h: Heap, ss: Strings, s: nat)
    requires Sound(h, ss) && s in ss
    ensures Placed(Copied(h, ss[s]), ss[s]) && Forgotten(Copied(h, ss[s]), ss[s]) == h
  {
    if ss[s].buffer.Some? {
      var b := ss[s].buffer.value;
      HeldIsLive(h, ss, s);
      assert Counted(h, ss, b);
      assert Dereferenced(Referenced(h, b), b) == h;
    }
  }

  /** An empty string more or less makes no difference. */
  lemma {:induction false} PutUnheld(h: Heap, ss: Strings, s: nat)
    requires Sound(h, ss) && s !in ss
    ensures Sound(h, ss[s := EMPTY])
  {
    forall b | b in h ensures Counted(h, ss[s := EMPTY], b) {
      HoldersUpdate(ss, s, EMPTY, b);
      assert Counted(h, ss, b);
    }
  }

  lemma {:induction false} TakeUnheld(h: Heap, ss: Strings, s: nat)
    requires Sound(h, ss) && s in ss && ss[s] == EMPTY
    ensures Sound(h, ss - {s})
  {
    forall b | b in h ensures Counted(h, ss - {s}, b) {
      HoldersRemove(ss, s, b);
      assert Counted(h, ss, b);
    }
  }
}
