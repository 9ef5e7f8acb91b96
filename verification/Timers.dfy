/** common/dispatch.c: the table of timeouts, one entry for a function and its argument. */
module Timers {
  import opened Wrappers

  const TIME_MAX := 0x7FFF_FFFF
  const USEC_MAX := 1_000_000

  /** A point in time, or a span, in seconds and microseconds. */
  datatype Time = Time(sec: int, usec: int) {
    function Micros(): (m: int) { sec * USEC_MAX + usec }

    predicate Normal() { 0 <= usec < USEC_MAX }
  }

  // ---- The interval of a timeout ----

  /** Whole seconds from `now` to `when`. A caller that gave no microseconds is taken not to care about them. */
  function SecondsUntil(when: Time, now: Time): (s: int) {
    when.sec - now.sec - if when.usec != 0 && when.usec < now.usec then 1 else 0
  }

  /** The time left until `when`, limited to the range of the timer library. */
  method ComputeInterval(when: Time, now: Time) returns (r: Time)
    requires now.Normal()
    ensures r == Interval(when, now)
  {
    var sec, usec := when.sec - now.sec, when.usec - now.usec;
    if when.usec != 0 && usec < 0 { sec, usec := sec - 1, usec + USEC_MAX; }
    if sec < 0 {
      sec, usec := 0, 0;
    } else if sec >= TIME_MAX {
      sec, usec := TIME_MAX - 1, 0;
    } else if usec < 0 {
      usec := 0;
    } else if usec >= USEC_MAX {
      usec := USEC_MAX - 1;
    }
    r := Time(sec, usec);
  }

  function Interval(when: Time, now: Time): (r: Time)
    requires now.Normal()
    ensures r.Normal() && 0 <= r.sec < TIME_MAX
  {
    var s := SecondsUntil(when, now);
    if s < 0 then Time(0, 0)
    else if s >= TIME_MAX then Time(TIME_MAX - 1, 0)
    else
      var u := when.Micros() - now.Micros() - s * USEC_MAX;
      Time(s, if u < 0 then 0 else if u >= USEC_MAX then USEC_MAX - 1 else u)
  }

  /** When the timer of a timeout runs out. */
  function Due(when: Time, now: Time): (m: int)
    requires now.Normal()
  {
    now.Micros() + Interval(when, now).Micros()
  }

  /** How long after its time a timeout for `when` comes if the timer library is punctual; negative when early. */
  function Lateness(when: Time, now: Time): (l: int)
    requires now.Normal()
  {
    Due(when, now) - when.Micros()
  }

  /** A timeout comes before its time exactly when it is too far away, or its microseconds make up a second. */
  lemma EarlyIff(when: Time, now: Time)
    requires now.Normal() && when.usec >= 0
    ensures Lateness(when, now) < 0 <==>
            || SecondsUntil(when, now) >= TIME_MAX
            || (when.Micros() > now.Micros() && when.usec - now.usec >= USEC_MAX)
  {
    assert when.Micros() - now.Micros() == (when.sec - now.sec) * USEC_MAX + (when.usec - now.usec);
  }

  /** For a time in reach and still to come, a timeout is exact unless the caller gave no microseconds, when it is
      late by the microseconds of the clock. */
  lemma LateIff(when: Time, now: Time)
    requires now.Normal() && when.Normal() && now.Micros() <= when.Micros() && SecondsUntil(when, now) < TIME_MAX
    ensures Lateness(when, now) == if when.usec == 0 then now.usec else 0
  {
    assert when.Micros() - now.Micros() == (when.sec - now.sec) * USEC_MAX + (when.usec - now.usec);
  }

  /** A timeout runs out at once exactly when its time is not still to come. */
  lemma AtOnceIff(when: Time, now: Time)
    requires now.Normal() && when.Normal()
    ensures Due(when, now) == now.Micros() <==> when.Micros() <= now.Micros()
  {
    assert when.Micros() - now.Micros() == (when.sec - now.sec) * USEC_MAX + (when.usec - now.usec);
  }

  /** One that is too far away runs out after the longest interval of the timer library. */
  lemma FarAway(when: Time, now: Time)
    requires now.Normal() && SecondsUntil(when, now) >= TIME_MAX
    ensures Due(when, now) == now.Micros() + (TIME_MAX - 1) * USEC_MAX
  {
  }

  // ---- The table ----

  /** A timeout's function and argument. The function is missing from an entry made without naming one. */
  datatype Key<F, W> = Key(func: Option<F>, what: W)

  /** An entry of the list, with the time at which its timer runs out, in microseconds. */
  datatype Entry<F, W> = Entry(key: Key<F, W>, due: int)

  predicate Unique<F(==), W(==)>(list: seq<Entry<F, W>>) {
    forall i, j :: 0 <= i < j < |list| ==> list[i].key != list[j].key
  }

  predicate HasKey<F(==), W(==)>(list: seq<Entry<F, W>>, k: Key<F, W>) {
    exists i :: 0 <= i < |list| && list[i].key == k
  }

  /** The keys of a list and when they are due; of two entries with one key the front one would count. */
  function Pending<F(==,!new), W(==,!new)>(list: seq<Entry<F, W>>): (m: map<Key<F, W>, int>)
    ensures forall k :: k in m <==> HasKey(list, k)
  {
    if list == [] then map[] else Pending(list[1..])[list[0].key := list[0].due]
  }

  function Drop<T>(list: seq<T>, i: nat): (r: seq<T>)
    requires i < |list|
  {
    list[..i] + list[i + 1..]
  }

  lemma UndoPut<K, V>(m: map<K, V>, k: K, v: V)
    requires k !in m
    ensures m[k := v] - {k} == m
  {
  }

  lemma PutAndTake<K, V>(m: map<K, V>, k: K, v: V, k': K)
    requires k != k'
    ensures m[k := v] - {k'} == (m - {k'})[k := v]
  {
  }

  lemma PutAgain<K, V>(m: map<K, V>, k: K, v: V)
    ensures (m - {k})[k := v] == m[k := v]
  {
  }

  lemma {:induction false} PendingPush<F(!new), W(!new)>(e: Entry<F, W>, list: seq<Entry<F, W>>,
                                                         before: map<Key<F, W>, int>)
    requires Unique(list) && !HasKey(list, e.key) && Pending(list) == before - {e.key}
    ensures Unique([e] + list) && Pending([e] + list) == before[e.key := e.due]
  {
    assert ([e] + list)[1..] == list;
    PutAgain(before, e.key, e.due);
  }

  /** Without an entry for the key, the table has none to take out. */
  lemma NothingToTake<F(!new), W(!new)>(list: seq<Entry<F, W>>, k: Key<F, W>)
    requires !HasKey(list, k)
    ensures Pending(list) - {k} == Pending(list)
  {
  }

  /** Unlinking an entry of a list without repetitions takes its key, and no other, out of the table. */
  lemma {:induction false} PendingDrop<F(!new), W(!new)>(list: seq<Entry<F, W>>, i: nat)
    requires Unique(list) && i < |list|
    ensures Unique(Drop(list, i)) && Pending(Drop(list, i)) == Pending(list) - {list[i].key}
  {
    var d := Drop(list, i);
    assert Unique(d) by { assert forall j :: 0 <= j < |d| ==> d[j] == if j < i then list[j] else list[j + 1]; }
    if i == 0 {
      assert d == list[1..];
      assert !HasKey(d, list[0].key);
      UndoPut(Pending(d), list[0].key, list[0].due);
    } else {
      var rest := list[1..];
      assert d[0] == list[0] && d[1..] == Drop(rest, i - 1);
      PendingDrop(rest, i - 1);
      PutAndTake(Pending(rest), list[0].key, list[0].due, list[i].key);
    }
  }

  lemma {:induction false} PendingAt<F(!new), W(!new)>(list: seq<Entry<F, W>>, i: nat)
    requires Unique(list) && i < |list|
    ensures list[i].key in Pending(list) && Pending(list)[list[i].key] == list[i].due
  {
    if i > 0 { PendingAt(list[1..], i - 1); }
  }

  predicate Matches<F(==), W(==)>(k: Key<F, W>, where_: Option<F>, what: W) {
    (where_ == None || k.func == where_) && k.what == what
  }

  class TimerTable<F(==,!new), W(==,!new)> {
    var timeouts: seq<Entry<F, W>>

    constructor ()
      ensures Valid() && Table() == map[]
    {
      timeouts := [];
    }

    /** No two entries have the same function and argument. */
    predicate Valid()
      reads this
    {
      Unique(timeouts)
    }

    function Table(): (m: map<Key<F, W>, int>)
      reads this
    {
      Pending(timeouts)
    }

    /** The place of the first entry for a function, or any function when none is named, and an argument. */
    method Find(where_: Option<F>, what: W) returns (i: nat)
      ensures i <= |timeouts| && (i < |timeouts| ==> Matches(timeouts[i].key, where_, what))
      ensures forall j :: 0 <= j < i ==> !Matches(timeouts[j].key, where_, what)
    {
      i := 0;
      while i < |timeouts|
        invariant i <= |timeouts| && forall j :: 0 <= j < i ==> !Matches(timeouts[j].key, where_, what)
      {
        if Matches(timeouts[i].key, where_, what) { return; }
        i := i + 1;
      }
    }

    /** Sets a timeout for `when`, superseding the one with its function and argument. Without a function it
        supersedes any one of the argument's, which keeps its function. */
    method AddTimeout(when: Time, where_: Option<F>, what: W, now: Time) returns (k: Key<F, W>)
      requires Valid() && now.Normal()
      modifies this
      ensures Valid()
      ensures Table() == old(Table())[k := Due(when, now)]
      ensures k.what == what && (where_ != None ==> k.func == where_)
      ensures where_ == None && k !in old(Table()) ==> k.func == None && forall f :: Key(f, what) !in old(Table())
    {
      var i := Find(where_, what);
      ghost var before := timeouts;
      k := Key(where_, what);
      if i < |timeouts| {
        k := timeouts[i].key;
        PendingDrop(timeouts, i);
        timeouts := Drop(timeouts, i);
        PendingAt(before, i);
      } else {
        assert forall f :: Matches(Key(f, what), where_, what) ==> !HasKey(before, Key(f, what));
        assert where_ == None ==> forall f :: Matches(Key(f, what), where_, what);
        assert !HasKey(before, k);
        NothingToTake(before, k);
      }
      assert Unique(timeouts) && Pending(timeouts) == Pending(before) - {k} && !HasKey(timeouts, k);
      var interval := ComputeInterval(when, now);
      var due := now.Micros() + interval.Micros();
      assert due == Due(when, now);
      var e := Entry(k, due);
      PendingPush(e, timeouts, Pending(before));
      timeouts := [e] + timeouts;
    }

    /** Takes the timeout for a function and argument, if there is one, off the list. */
    method CancelTimeout(where_: Option<F>, what: W)
      requires Valid()
      modifies this
      ensures Valid() && Table() == old(Table()) - {Key(where_, what)}
    {
      var i := 0;
      while i < |timeouts|
        invariant i <= |timeouts| && forall j :: 0 <= j < i ==> timeouts[j].key != Key(where_, what)
      {
        if timeouts[i].key == Key(where_, what) {
          PendingDrop(timeouts, i);
          timeouts := Drop(timeouts, i);
          return;
        }
        i := i + 1;
      }
    }

    /** A timer ran out: unlinks its entry. Only then does the caller run the function, which may set the same
        timeout again. */
    method Expire(k: Key<F, W>) returns (found: bool)
      requires Valid()
      modifies this
      ensures Valid() && found == (k in old(Table())) && Table() == old(Table()) - {k}
    {
      var i := 0;
      while i < |timeouts|
        invariant i <= |timeouts| && forall j :: 0 <= j < i ==> timeouts[j].key != k
      {
        if timeouts[i].key == k {
          PendingDrop(timeouts, i);
          PendingAt(timeouts, i);
          timeouts := Drop(timeouts, i);
          return true;
        }
        i := i + 1;
      }
      return false;
    }
  }
}
