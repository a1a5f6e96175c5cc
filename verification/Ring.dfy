/** The ring buffer both message layers use: slots, a head and a tail index, empty when
    they meet. N slots hold at most N-1 values; one more makes the ring look empty. */
module Ring {
  function Contents(slots: seq<int>, head: nat, tail: nat): (r: seq<int>)
    requires head < |slots| && tail < |slots|
    ensures |r| < |slots|
    ensures r == [] <==> head == tail
  {
    if head <= tail then slots[head..tail] else slots[head..] + slots[..tail]
  }

  function Next(i: nat, n: nat): nat
    requires i < n
  {
    (i + 1) % n
  }

  lemma NextWraps(i: nat, n: nat)
    requires i < n
    ensures Next(i, n) == if i + 1 == n then 0 else i + 1
  {
    if i + 1 < n {
      assert (i + 1) % n == i + 1;
    }
  }

  /** enque appends exactly when fewer than N-1 values are pending; otherwise all are lost. */
  lemma Push(slots: seq<int>, head: nat, tail: nat, v: int)
    requires head < |slots| && tail < |slots|
    ensures Next(tail, |slots|) < |slots|
    ensures var before := Contents(slots, head, tail);
            var after := Contents(slots[tail := v], head, Next(tail, |slots|));
            after == if |before| < |slots| - 1 then before + [v] else []
  {
    NextWraps(tail, |slots|);
    hide Next;
    var slots' := slots[tail := v];
    if tail + 1 < |slots| {
      if head <= tail {
        assert slots'[head..tail + 1] == slots[head..tail] + [v];
      } else if head != tail + 1 {
        assert slots'[head..] + slots'[..tail + 1] == (slots[head..] + slots[..tail]) + [v];
      }
    } else if head != 0 {
      assert slots'[head..] + slots'[..0] == slots[head..tail] + [v];
    }
  }

  lemma Pop(slots: seq<int>, head: nat, tail: nat)
    requires head < |slots| && tail < |slots| && head != tail
    ensures Next(head, |slots|) < |slots|
    ensures slots[head] == Contents(slots, head, tail)[0]
    ensures Contents(slots, Next(head, |slots|), tail) == Contents(slots, head, tail)[1..]
  {
    NextWraps(head, |slots|);
  }
}
