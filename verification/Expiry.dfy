/** The queue of order time-to-live entries. */
module Expiry {
  /** One of the four side books. */
  type BookNo = n: nat | n < 4

  /** `book` is the side book that the entry's side and position side select. */
  datatype Key = Key(expire: nat, book: BookNo, layer: nat, id: nat)

  /** `part` is the due part of the queue, or the part that is not due. */
  ghost predicate Splits(queue: multiset<Key>, now: nat, due: bool, part: multiset<Key>) {
    forall k: Key :: part[k] == if (k.expire <= now) == due then queue[k] else 0
  }

  lemma {:induction false} LeftExists(queue: multiset<Key>, now: nat)
    ensures exists part :: Splits(queue, now, false, part)
    decreases |queue|
  {
    if queue == multiset{} {
      assert Splits(queue, now, false, queue);
    } else {
      var k :| k in queue;
      LeftExists(queue - multiset{k}, now);
      var rest :| Splits(queue - multiset{k}, now, false, rest);
      assert Splits(queue, now, false, if k.expire <= now then rest else rest + multiset{k});
    }
  }

  /** What a sweep leaves in the queue. */
  ghost function Left(queue: multiset<Key>, now: nat): (part: multiset<Key>)
    ensures Splits(queue, now, false, part)
  {
    LeftExists(queue, now);
    var part :| Splits(queue, now, false, part);
    part
  }

  ghost predicate Sorted(keys: seq<Key>) {
    forall i, j | 0 <= i < j < |keys| :: keys[i].expire <= keys[j].expire
  }

  ghost predicate IsTop(queue: multiset<Key>, k: Key) {
    k in queue && forall j | j in queue :: k.expire <= j.expire
  }

  lemma {:induction false} TopExists(queue: multiset<Key>)
    requires queue != multiset{}
    ensures exists k :: IsTop(queue, k)
    decreases |queue|
  {
    var k :| k in queue;
    var rest := queue - multiset{k};
    forall j | j in queue ensures j == k || j in rest { if j != k { assert rest[j] == queue[j]; } }
    if rest == multiset{} {
      assert IsTop(queue, k);
    } else {
      TopExists(rest);
      var t :| IsTop(rest, t);
      assert IsTop(queue, if k.expire <= t.expire then k else t);
    }
  }

  class OrderExpiryManager {
    var queue: multiset<Key>
    const ttlReserved: nat
    const ttlLive: nat

    constructor (ttlReserved: nat, ttlLive: nat)
      ensures queue == multiset{} && this.ttlReserved == ttlReserved && this.ttlLive == ttlLive
    {
      queue := multiset{};
      this.ttlReserved := ttlReserved;
      this.ttlLive := ttlLive;
    }

    method Register(book: BookNo, layer: nat, id: nat, live: bool, now: nat)
      modifies this
      ensures queue == old(queue) + multiset{Key(now + (if live then ttlLive else ttlReserved), book, layer, id)}
    {
      var ttl := if live then ttlLive else ttlReserved;
      queue := queue + multiset{Key(now + ttl, book, layer, id)};
    }

    method Top() returns (k: Key)
      requires queue != multiset{}
      ensures IsTop(queue, k)
    {
      TopExists(queue);
      k :| k in queue && forall j | j in queue :: k.expire <= j.expire;
    }

    /** Pops exactly the due entries, earliest first. */
    method SweepExpired(now: nat) returns (expired: seq<Key>)
      modifies this
      ensures Splits(old(queue), now, true, multiset(expired)) && Sorted(expired)
      ensures queue == old(Left(queue, now))
    {
      expired := [];
      while queue != multiset{}
        invariant multiset(expired) + queue == old(queue)
        invariant Sorted(expired)
        invariant forall k | k in expired :: k.expire <= now && forall j | j in queue :: k.expire <= j.expire
        decreases |queue|
      {
        var k := Top();
        if k.expire > now {
          break;
        }
        expired := expired + [k];
        queue := queue - multiset{k};
      }
      SweptAll(old(queue), queue, expired, now);
    }
  }

  lemma SweptAll(before: multiset<Key>, after: multiset<Key>, expired: seq<Key>, now: nat)
    requires multiset(expired) + after == before
    requires (forall k | k in expired :: k.expire <= now) && (forall k | k in after :: k.expire > now)
    ensures Splits(before, now, true, multiset(expired)) && after == Left(before, now)
  {
    forall k: Key
      ensures multiset(expired)[k] == (if k.expire <= now then before[k] else 0)
      ensures after[k] == Left(before, now)[k]
    {
      assert before[k] == multiset(expired)[k] + after[k];
      if k.expire <= now { assert k !in after; } else { assert k !in multiset(expired); }
    }
  }
}
