/**
 The in-memory publisher: per-tenant lists of subscribers with bounded channels. Subscriptions are numbered as they are
 made. A channel is closed once, by its cancel function or by closing the whole publisher, whichever comes first.
 */
module PubSub {
  import opened Sequences

  const CAPACITY: nat := 64
  const MAX_PAYLOAD_BYTES: nat := 65536

  datatype Channel<E> = Channel(events: seq<E>, closed: bool)

  /** A send that does not block: a full channel drops the event. */
  function Offer<E>(c: Channel<E>, event: E): Channel<E>
  {
    if |c.events| < CAPACITY then c.(events := c.events + [event]) else c
  }

  predicate NoRepeats(ids: seq<nat>) { forall i, j :: 0 <= i < j < |ids| ==> ids[i] != ids[j] }

  function ListOf(subscribers: map<string, seq<nat>>, tenant: string): seq<nat>
  {
    if tenant in subscribers then subscribers[tenant] else []
  }

  /** Every subscription is listed once, for one tenant. */
  ghost predicate WellListed(subscribers: map<string, seq<nat>>)
  {
    && (forall t :: t in subscribers ==> NoRepeats(subscribers[t]))
    && (forall t, u, id :: t in subscribers && u in subscribers && id in subscribers[t] && id in subscribers[u] ==>
          t == u)
  }

  predicate Listed(subscribers: map<string, seq<nat>>, id: nat) { exists t :: t in subscribers && id in subscribers[t] }

  class MemoryPubSub<E> {
    var subscribers: map<string, seq<nat>>
    var channels: map<nat, Channel<E>>
    var made: nat

    /** A listed subscription is open and listed once; no channel holds more than its capacity. */
    ghost predicate Valid()
      reads this
    {
      && (forall id: nat :: id in channels <==> id < made)
      && (forall id :: id in channels ==> |channels[id].events| <= CAPACITY)
      && WellListed(subscribers)
      && (forall t, id :: t in subscribers && id in subscribers[t] ==> id in channels && !channels[id].closed)
    }

    constructor ()
      ensures Valid() && subscribers == map[] && made == 0
    {
      subscribers, channels, made := map[], map[], 0;
    }

    /** An event reaches exactly the tenant's subscribers that have room; an oversized one reaches nobody. */
    method Publish(tenant: string, event: E, size: nat) returns (ok: bool)
      requires Valid()
      modifies this`channels
      ensures Valid() && ok == (size <= MAX_PAYLOAD_BYTES)
      ensures channels.Keys == old(channels).Keys && (!ok ==> channels == old(channels))
      ensures ok ==> forall id :: id in channels ==>
                channels[id] == if id in ListOf(subscribers, tenant) then Offer(old(channels)[id], event)
                    else old(channels)[id]
    {
      if size > MAX_PAYLOAD_BYTES {
        return false;
      }
      var subs := ListOf(subscribers, tenant);
      for i := 0 to |subs|
        invariant channels.Keys == old(channels).Keys
        invariant forall id :: id in channels ==>
                    channels[id] == if id in subs[..i] then Offer(old(channels)[id], event) else old(channels)[id]
      {
        var ch := channels[subs[i]];
        assert !ch.closed;
        if |ch.events| < CAPACITY {
          channels := channels[subs[i] := ch.(events := ch.events + [event])];
        }
        assert subs[..i + 1] == subs[..i] + [subs[i]];
      }
      assert subs[..|subs|] == subs;
      return true;
    }

    method Subscribe(tenant: string) returns (id: nat)
      requires Valid()
      modifies this`subscribers, this`channels, this`made
      ensures Valid() && id == old(made) && made == id + 1 && channels == old(channels)[id := Channel([], false)]
      ensures subscribers == old(subscribers)[tenant := ListOf(old(subscribers), tenant) + [id]]
    {
      id := made;
      assert id !in channels;
      forall t | t in subscribers ensures id !in subscribers[t] {
        assert id in subscribers[t] ==> id in channels;
      }
      channels, made := channels[id := Channel([], false)], made + 1;
      subscribers := subscribers[tenant := ListOf(subscribers, tenant) + [id]];
    }

    /** The first entry equal to `id` is taken out; what was buffered can still be received. */
    method Cancel(tenant: string, id: nat)
      requires Valid() && id < made
      requires forall t :: t in subscribers && id in subscribers[t] ==> t == tenant
      modifies this`subscribers, this`channels
      ensures Valid() && channels == old(channels)[id := old(channels)[id].(closed := true)]
      ensures forall t :: ListOf(subscribers, t) == Filter(ListOf(old(subscribers), t), OtherThan(id))
    {
      var subs := ListOf(subscribers, tenant);
      var i := 0;
      while i < |subs| && subs[i] != id
        invariant 0 <= i <= |subs| && id !in subs[..i]
      {
        i := i + 1;
      }
      if i < |subs| {
        TakenOut(subscribers, tenant, i);
        subscribers := subscribers[tenant := subs[..i] + subs[i + 1..]];
      } else {
        NotListed(subscribers, id);
      }
      assert LeftWithout(subscribers, old(subscribers), id);
      CloseChannel(id);
    }

    /** Every listed channel is closed, and nobody is subscribed any more. */
    method Close()
      requires Valid()
      modifies this`subscribers, this`channels
      ensures Valid() && subscribers == map[] && channels.Keys == old(channels).Keys
      ensures forall id :: id in channels ==>
                channels[id] == if Listed(old(subscribers), id) then old(channels)[id].(closed := true)
                    else old(channels)[id]
    {
      while subscribers != map[]
        invariant Valid() && channels.Keys == old(channels).Keys && subscribers.Keys <= old(subscribers).Keys
        invariant forall t :: t in subscribers ==> subscribers[t] == old(subscribers)[t]
        invariant forall id :: id in channels ==>
                    channels[id] == if Listed(old(subscribers), id) && !Listed(subscribers, id)
                                    then old(channels)[id].(closed := true) else old(channels)[id]
        decreases |subscribers|
      {
        var tenant :| tenant in subscribers;
        CloseTenant(tenant);
      }
    }

    method CloseTenant(tenant: string)
      requires Valid() && tenant in subscribers
      modifies this`subscribers, this`channels
      ensures Valid() && subscribers == old(subscribers) - {tenant} && channels.Keys == old(channels).Keys
      ensures forall id :: id in channels ==>
                channels[id] == if id in old(subscribers)[tenant] then old(channels)[id].(closed := true)
                    else old(channels)[id]
    {
      var subs := subscribers[tenant];
      for i := 0 to |subs|
        invariant channels.Keys == old(channels).Keys && subscribers == old(subscribers)
        invariant forall id :: id in channels ==>
                    channels[id] == if id in subs[..i] then old(channels)[id].(closed := true) else old(channels)[id]
      {
        CloseChannel(subs[i]);
        assert subs[..i + 1] == subs[..i] + [subs[i]];
      }
      assert subs[..|subs|] == subs;
      subscribers := subscribers - {tenant};
    }

    method CloseChannel(id: nat)
      requires id in channels
      modifies this`channels
      ensures channels == old(channels)[id := old(channels)[id].(closed := true)]
    {
      if !channels[id].closed {
        channels := channels[id := channels[id].(closed := true)];
      }
    }
  }

  function OtherThan(id: nat): nat -> bool { (x: nat) => x != id }

  lemma {:induction false} AbsentStays(ids: seq<nat>, id: nat)
    requires id !in ids
    ensures Filter(ids, OtherThan(id)) == ids
  {
    if ids != [] { AbsentStays(ids[1..], id); }
  }

  lemma HeadTakenOut(id: nat, b: seq<nat>)
    requires id !in b
    ensures Filter([id] + b, OtherThan(id)) == b
  {
    assert ([id] + b)[1..] == b;
    AbsentStays(b, id);
  }

  lemma OneTakenOut(a: seq<nat>, id: nat, b: seq<nat>)
    requires id !in a && id !in b
    ensures Filter(a + ([id] + b), OtherThan(id)) == a + b
  {
    FilterConcat(a, [id] + b, OtherThan(id));
    AbsentStays(a, id);
    HeadTakenOut(id, b);
  }

  lemma SplitAt(ids: seq<nat>, i: nat)
    requires i < |ids|
    ensures ids == ids[..i] + ([ids[i]] + ids[i + 1..])
    ensures NoRepeats(ids) ==> ids[i] !in ids[..i] && ids[i] !in ids[i + 1..]
  {
  }

  lemma TakenOutAt(ids: seq<nat>, i: nat)
    requires NoRepeats(ids) && i < |ids|
    ensures Filter(ids, OtherThan(ids[i])) == ids[..i] + ids[i + 1..]
  {
    SplitAt(ids, i);
    OneTakenOut(ids[..i], ids[i], ids[i + 1..]);
  }

  lemma NoRepeatsLeft(ids: seq<nat>, i: nat)
    requires NoRepeats(ids) && i < |ids|
    ensures NoRepeats(ids[..i] + ids[i + 1..])
  {
    var left := ids[..i] + ids[i + 1..];
    assert forall j :: 0 <= j < |left| ==> left[j] == ids[if j < i then j else j + 1];
  }

  /** The lists that are left once a subscription is in none of them. */
  ghost predicate LeftWithout(left: map<string, seq<nat>>, subscribers: map<string, seq<nat>>, id: nat)
  {
    && WellListed(left)
    && (forall t :: ListOf(left, t) == Filter(ListOf(subscribers, t), OtherThan(id)))
    && (forall t, x :: t in left && x in left[t] ==> x != id && t in subscribers && x in subscribers[t])
  }

  lemma NotListed(subscribers: map<string, seq<nat>>, id: nat)
    requires WellListed(subscribers) && !Listed(subscribers, id)
    ensures LeftWithout(subscribers, subscribers, id)
  {
    forall t ensures Filter(ListOf(subscribers, t), OtherThan(id)) == ListOf(subscribers, t) {
      AbsentStays(ListOf(subscribers, t), id);
    }
  }

  function TakeOut(subscribers: map<string, seq<nat>>, tenant: string, i: nat): map<string, seq<nat>>
    requires tenant in subscribers && i < |subscribers[tenant]|
  {
    subscribers[tenant := subscribers[tenant][..i] + subscribers[tenant][i + 1..]]
  }

  /** Every list is part of the same tenant's list in `whole`. */
  ghost predicate PartOf(left: map<string, seq<nat>>, whole: map<string, seq<nat>>)
  {
    forall t, x :: t in left && x in left[t] ==> t in whole && x in whole[t]
  }

  lemma PartIsWellListed(left: map<string, seq<nat>>, whole: map<string, seq<nat>>)
    requires WellListed(whole) && PartOf(left, whole) && forall t :: t in left ==> NoRepeats(left[t])
    ensures WellListed(left)
  {}

  lemma LeftOver(ids: seq<nat>, i: nat, x: nat)
    requires NoRepeats(ids) && i < |ids| && x in ids[..i] + ids[i + 1..]
    ensures x in ids && x != ids[i]
  {
    SplitAt(ids, i);
  }

  lemma LeftWellListed(subscribers: map<string, seq<nat>>, tenant: string, i: nat)
    requires WellListed(subscribers) && tenant in subscribers && i < |subscribers[tenant]|
    ensures var left, id := TakeOut(subscribers, tenant, i), subscribers[tenant][i];
            && WellListed(left)
            && (forall t, x :: t in left && x in left[t] ==> x != id && t in subscribers && x in subscribers[t])
  {
    var ids, left := subscribers[tenant], TakeOut(subscribers, tenant, i);
    NoRepeatsLeft(ids, i);
    forall t, x | t in left && x in left[t] ensures x != ids[i] && t in subscribers && x in subscribers[t] {
      if t == tenant { LeftOver(ids, i, x); } else { assert ids[i] in subscribers[tenant]; }
    }
    PartIsWellListed(left, subscribers);
  }

  lemma TakenOutOf(subscribers: map<string, seq<nat>>, tenant: string, i: nat, t: string)
    requires WellListed(subscribers) && tenant in subscribers && i < |subscribers[tenant]|
    ensures ListOf(TakeOut(subscribers, tenant, i), t) ==
            Filter(ListOf(subscribers, t), OtherThan(subscribers[tenant][i]))
  {
    if t == tenant {
      TakenOutAt(subscribers[tenant], i);
    } else {
      assert t in subscribers ==> subscribers[tenant][i] !in subscribers[t];
      AbsentStays(ListOf(subscribers, t), subscribers[tenant][i]);
    }
  }

  /** Taking a subscription out of its tenant's list takes it out of every list, and nothing else changes. */
  lemma TakenOut(subscribers: map<string, seq<nat>>, tenant: string, i: nat)
    requires WellListed(subscribers) && tenant in subscribers && i < |subscribers[tenant]|
    ensures LeftWithout(TakeOut(subscribers, tenant, i), subscribers, subscribers[tenant][i])
  {
    var left, id := TakeOut(subscribers, tenant, i), subscribers[tenant][i];
    LeftWellListed(subscribers, tenant, i);
    forall t ensures ListOf(left, t) == Filter(ListOf(subscribers, t), OtherThan(id)) {
      TakenOutOf(subscribers, tenant, i, t);
    }
  }
}
