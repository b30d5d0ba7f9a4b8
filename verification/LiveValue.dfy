/**
 The live value behind one watched field: its current value and a change channel of capacity 16 that drops the oldest
 change when full. The consumer receives without taking the lock, so receives may fall between the channel operations
 of one update; how many is a parameter of the update.
 */
module LiveValue {
  import opened Wrappers

  datatype Change<T> = Change(before: T, after: T, wasNull: bool, isNull: bool)

  const CAPACITY: nat := 16

  /** The same value, or equal under the comparison that suppresses notifications. */
  ghost predicate Same<T>(equal: (T, T) -> bool, a: T, b: T) { a == b || equal(a, b) }

  ghost predicate Transitive<T(!new)>(equal: (T, T) -> bool)
  {
    forall a, b, c {:trigger equal(a, b), equal(b, c)} :: equal(a, b) && equal(b, c) ==> equal(a, c)
  }

  /** `next` starts from where `c` ended. */
  ghost predicate Follows<T>(equal: (T, T) -> bool, c: Change<T>, next: Change<T>)
  {
    Same(equal, c.after, next.before) && c.isNull == next.wasNull
  }

  ghost predicate Chained<T>(equal: (T, T) -> bool, sent: seq<Change<T>>)
  {
    forall i, j :: 0 <= i && j == i + 1 && j < |sent| ==> Follows(equal, sent[i], sent[j])
  }

  /** The end of the chain is the value `v` that is set, or not, as `isSet` says. */
  ghost predicate EndsAt<T>(equal: (T, T) -> bool, start: T, sent: seq<Change<T>>, v: T, isSet: bool)
  {
    if sent == [] then Same(equal, start, v) && !isSet
    else Same(equal, sent[|sent| - 1].after, v) && sent[|sent| - 1].isNull == !isSet
  }

  lemma ChainExtends<T>(equal: (T, T) -> bool, start: T, sent: seq<Change<T>>, change: Change<T>)
    requires Chained(equal, sent) && EndsAt(equal, start, sent, change.before, !change.wasNull)
    ensures Chained(equal, sent + [change])
  {}

  class Value<T(==, !new)> {
    const defaultVal: T
    const parse: string -> Option<T>
    const equal: (T, T) -> bool
    var current: T
    var isSet: bool
    var closed: bool
    var dropped: nat
    var changes: seq<Change<T>>

    // Every change ever sent. The first `head` of them have left the channel: so many received, the others evicted.
    ghost var sent: seq<Change<T>>
    ghost var head: nat
    ghost var received: nat
    ghost var evicted: set<nat>

    ghost predicate Queue()
      reads this
    {
      && |changes| <= CAPACITY && head <= |sent| && changes == sent[head..]
      && (forall i :: i in evicted ==> i < head) && head == received + |evicted|
      && |evicted| <= dropped
    }

    /** The changes sent lead from the default to `v`; the newest of them was not evicted. */
    ghost predicate History(v: T, set_: bool)
      reads this
    {
      && Chained(equal, sent)
      && (sent != [] ==> |sent| - 1 !in evicted && Same(equal, defaultVal, sent[0].before) && sent[0].wasNull)
      && (!closed ==> EndsAt(equal, defaultVal, sent, v, set_))
    }

    ghost predicate Valid()
      reads this
    {
      Transitive(equal) && Queue() && History(current, isSet)
    }

    constructor (defaultVal: T, parse: string -> Option<T>, equal: (T, T) -> bool)
      requires Transitive(equal)
      ensures Valid() && current == defaultVal && !isSet && !closed && dropped == 0 && sent == [] && evicted == {}
      ensures this.defaultVal == defaultVal && this.parse == parse && this.equal == equal
    {
      this.defaultVal, this.parse, this.equal := defaultVal, parse, equal;
      current, isSet, closed, dropped, changes := defaultVal, false, false, 0, [];
      sent, head, received, evicted := [], 0, 0, {};
    }

    /** The value and null state a raw update leads to. */
    function Parsed(raw: string, set_: bool): (T, bool)
    {
      if set_ && parse(raw).Some? then (parse(raw).value, true) else (defaultVal, false)
    }

    /** Whether going from one value to another is reported. */
    predicate Reported(v: T, wasSet: bool, w: T, nowSet: bool) { wasSet != nowSet || !equal(v, w) }

    method Update(raw: string, set_: bool, early: nat, late: nat)
      requires Valid()
      modifies this
      ensures Valid() && closed == old(closed)
      ensures (current, isSet) == Parsed(raw, set_)
      ensures Notified(old(sent), old(changes), old(evicted), old(dropped), old(current), old(isSet))
    {
      var before, wasNull := current, !isSet;
      if !set_ {
        current, isSet := defaultVal, false;
      } else {
        var parsed := parse(raw);
        if parsed.None? {
          current, isSet := defaultVal, false;
        } else {
          current, isSet := parsed.value, true;
        }
      }
      assert Queue() && History(before, !wasNull);
      Notify(before, wasNull, early, late);
    }

    method UpdateDirect(v: T, early: nat, late: nat)
      requires Valid()
      modifies this
      ensures Valid() && closed == old(closed)
      ensures current == v && isSet
      ensures Notified(old(sent), old(changes), old(evicted), old(dropped), old(current), old(isSet))
    {
      var before, wasNull := current, !isSet;
      current, isSet := v, true;
      assert Queue() && History(before, !wasNull);
      Notify(before, wasNull, early, late);
    }

    /**
     How an update that found value `v` leaves the channel: nothing moves when the value is closed or the change is not
     reported; otherwise the change is the newest in the channel, and a full channel loses at most its oldest entry.
     */
    ghost predicate Notified(
      sent0: seq<Change<T>>, changes0: seq<Change<T>>, evicted0: set<nat>, dropped0: nat, v: T, wasSet: bool)
      reads this
    {
      if closed || !Reported(v, wasSet, current, isSet) then
        sent == sent0 && changes == changes0 && evicted == evicted0 && dropped == dropped0
      else
        var change := Change(v, current, !wasSet, !isSet);
        && sent == sent0 + [change]
        && changes != [] && changes[|changes| - 1] == change
        && dropped == dropped0 + (if |changes0| == CAPACITY then 1 else 0)
        && (|changes0| < CAPACITY ==> changes == changes0 + [change])
        && evicted0 <= evicted && |evicted| <= |evicted0| + dropped - dropped0
    }

    method Notify(before: T, wasNull: bool, early: nat, late: nat)
      requires Transitive(equal) && Queue() && History(before, !wasNull)
      modifies this`changes, this`dropped, this`sent, this`head, this`received, this`evicted
      ensures Valid()
      ensures Notified(old(sent), old(changes), old(evicted), old(dropped), before, !wasNull)
    {
      if closed {
        return;
      }
      if wasNull == !isSet && equal(before, current) {
        return;
      }
      var change := Change(before, current, wasNull, !isSet);
      ChainExtends(equal, defaultVal, sent, change);
      if |changes| < CAPACITY {
        Send(change);
      } else {
        DropOldest(early, late);
        if |changes| < CAPACITY {
          Send(change);
        }
      }
    }

    /** Counts a drop and takes the oldest change out, unless the consumer has emptied the channel meanwhile. */
    method DropOldest(early: nat, late: nat)
      requires Queue() && |changes| == CAPACITY
      modifies this`changes, this`dropped, this`head, this`received, this`evicted
      ensures Queue() && |changes| < CAPACITY && dropped == old(dropped) + 1
      ensures old(evicted) <= evicted && |evicted| <= |old(evicted)| + 1
    {
      dropped := dropped + 1;
      var _ := Receive(early);
      if changes != [] {
        evicted := evicted + {head};
        changes, head := changes[1..], head + 1;
      }
      var _ := Receive(late);
    }

    /** Sends on the channel, which must be open and have room. */
    method Send(change: Change<T>)
      requires Queue() && !closed && |changes| < CAPACITY
      modifies this`changes, this`sent
      ensures Queue() && sent == old(sent) + [change] && changes == old(changes) + [change]
    {
      changes, sent := changes + [change], sent + [change];
    }

    /** The consumer receives up to `n` changes, oldest first. */
    method Receive(n: nat) returns (batch: seq<Change<T>>)
      requires Queue()
      modifies this`changes, this`head, this`received
      ensures Queue() && batch + changes == old(changes)
              && |batch| == (if n <= |old(changes)| then n else |old(changes)|)
      ensures head == old(head) + |batch| && received == old(received) + |batch|
    {
      var k := if n <= |changes| then n else |changes|;
      batch := changes[..k];
      changes, head, received := changes[k..], head + k, received + k;
    }

    /** Closing keeps what is buffered for the consumer. */
    method Close()
      requires Valid()
      modifies this`closed
      ensures Valid() && closed
    {
      closed := true;
    }
  }

  // ---------------------------------------------------------------- what the consumer sees

  /** The changes in [from, end) that were not evicted, in order. */
  function Visible(evicted: set<nat>, from: nat, end: nat): (r: seq<nat>)
    requires from <= end
    ensures forall k :: 0 <= k < |r| ==> from <= r[k] < end && r[k] !in evicted
    decreases end - from
  {
    if from == end then []
    else if from in evicted then Visible(evicted, from + 1, end)
    else [from] + Visible(evicted, from + 1, end)
  }

  /** Neighbours among the delivered and buffered changes follow each other, or an eviction fell between them. */
  lemma {:induction false} NeighboursFollow<T>(
    equal: (T, T) -> bool, sent: seq<Change<T>>, evicted: set<nat>, from: nat, k: nat)
    requires Chained(equal, sent) && from <= |sent| && k + 1 < |Visible(evicted, from, |sent|)|
    ensures var seen := Visible(evicted, from, |sent|);
            && seen[k] < seen[k + 1]
            && (|| Follows(equal, sent[seen[k]], sent[seen[k + 1]])
                || exists e :: seen[k] < e < seen[k + 1] && e in evicted)
    decreases |sent| - from
  {
    var seen, rest := Visible(evicted, from, |sent|), Visible(evicted, from + 1, |sent|);
    if from in evicted {
      NeighboursFollow(equal, sent, evicted, from + 1, k);
    } else if k > 0 {
      NeighboursFollow(equal, sent, evicted, from + 1, k - 1);
    } else {
      FirstVisible(evicted, from + 1, |sent|);
      if seen[1] != from + 1 { assert from + 1 in evicted; }
    }
  }

  lemma {:induction false} FirstVisible(evicted: set<nat>, from: nat, end: nat)
    requires from <= end && Visible(evicted, from, end) != []
    ensures forall e :: from <= e < Visible(evicted, from, end)[0] ==> e in evicted
    decreases end - from
  {
    if from in evicted { FirstVisible(evicted, from + 1, end); }
  }
}
