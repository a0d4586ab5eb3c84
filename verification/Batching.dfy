/** src/mesh/extractor.py: slots go to the model in batches, and what comes back under
    other keys is dropped at once. `V` is the type of the values, which play no part. */
module Batching {
  import opened Vocabularies

  const SLOT_BATCH_SIZE: nat := 12

  // ---- batches -----------------------------------------------------------

  function Batches(slots: seq<Slot>): seq<seq<Slot>>
    decreases |slots|
  {
    if |slots| == 0 then []
    else if |slots| <= SLOT_BATCH_SIZE then [slots]
    else [slots[..SLOT_BATCH_SIZE]] + Batches(slots[SLOT_BATCH_SIZE..])
  }

  lemma {:induction false} BatchCount(slots: seq<Slot>)
    ensures |Batches(slots)| == (|slots| + 11) / 12
    decreases |slots|
  {
    if |slots| > SLOT_BATCH_SIZE { BatchCount(slots[SLOT_BATCH_SIZE..]); }
  }

  /** Batch `i` is the `i`-th stretch of twelve slots, the last one what is left. */
  lemma {:induction false} BatchIs(slots: seq<Slot>, i: nat)
    requires i < |Batches(slots)|
    ensures 12 * i < |slots|
    ensures Batches(slots)[i] == slots[12 * i..if 12 * i + 12 < |slots| then 12 * i + 12 else |slots|]
    decreases |slots|
  {
    if |slots| > SLOT_BATCH_SIZE && i > 0 {
      var rest := slots[SLOT_BATCH_SIZE..];
      BatchIs(rest, i - 1);
      assert Batches(slots)[i] == Batches(rest)[i - 1];
    }
  }

  lemma {:induction false} BatchesHold(slots: seq<Slot>, s: Slot)
    ensures s in slots <==> exists i :: 0 <= i < |Batches(slots)| && s in Batches(slots)[i]
    decreases |slots|
  {
    if |slots| > SLOT_BATCH_SIZE {
      var first, rest := slots[..SLOT_BATCH_SIZE], slots[SLOT_BATCH_SIZE..];
      BatchesHold(rest, s);
      assert slots == first + rest;
      if i :| 0 <= i < |Batches(rest)| && s in Batches(rest)[i] { assert s in Batches(slots)[i + 1]; }
      if s in first { assert s in Batches(slots)[0]; }
      forall i | 0 < i < |Batches(slots)| ensures Batches(slots)[i] == Batches(rest)[i - 1] { }
    } else if slots != [] {
      assert Batches(slots)[0] == slots;
    }
  }

  // ---- one document ------------------------------------------------------

  datatype Reply<V> = Unavailable | NotObject | Answer(m: map<string, V>)

  function Body<V>(r: Reply<V>): map<string, V> {
    if r.Answer? then r.m else map[]
  }

  /** Unregistered keys are dropped at once. */
  function Kept<V>(m: map<string, V>, batch: seq<Slot>): map<string, V> {
    map k | k in m && k in SlotNames(batch) :: m[k]
  }

  type Oracle<V> = nat -> Reply<V>

  function Call<V>(ask: Oracle<V>, i: nat): Reply<V> {
    ask(i)
  }

  /** What the first `n` batches of a document have brought. */
  function Merged<V>(ask: Oracle<V>, at: nat, batches: seq<seq<Slot>>, n: nat): map<string, V>
    requires n <= |batches|
  {
    if n == 0 then map[] else Merged(ask, at, batches, n - 1) + Kept(Body(Call(ask, at + n - 1)), batches[n - 1])
  }

  function Lost<V>(m: map<string, V>, batch: seq<Slot>): int {
    |m| - |Kept(m, batch)|
  }

  /** The keys returned less the keys kept. */
  function Dropped<V>(ask: Oracle<V>, at: nat, batches: seq<seq<Slot>>, n: nat): int
    requires n <= |batches|
  {
    if n == 0 then 0 else Dropped(ask, at, batches, n - 1) + Lost(Body(Call(ask, at + n - 1)), batches[n - 1])
  }

  lemma OneMoreBatch<V>(ask: Oracle<V>, at: nat, batches: seq<seq<Slot>>, n: nat, m: map<string, V>, batch: seq<Slot>)
    requires n < |batches| && Call(ask, at + n) == Answer(m) && batches[n] == batch
    ensures Merged(ask, at, batches, n + 1) == Merged(ask, at, batches, n) + Kept(m, batch)
    ensures Dropped(ask, at, batches, n + 1) == Dropped(ask, at, batches, n) + Lost(m, batch)
  {
    assert Body(Call(ask, at + n)) == m;
  }

  predicate Answered<V>(ask: Oracle<V>, from: nat, to: nat) {
    forall i :: from <= i < to ==> Call(ask, i).Answer?
  }

  /** After `n` calls, all answered. */
  ghost predicate Filled<V>(ask: Oracle<V>, at: nat, batches: seq<seq<Slot>>, n: nat, merged: map<string, V>, dropped: int) {
    && n <= |batches| && Answered(ask, at, at + n)
    && merged == Merged(ask, at, batches, n) && dropped == Dropped(ask, at, batches, n)
  }

  lemma OneMoreFilled<V>(ask: Oracle<V>, at: nat, batches: seq<seq<Slot>>, n: nat, merged: map<string, V>, dropped: int, m: map<string, V>)
    requires Filled(ask, at, batches, n, merged, dropped) && n < |batches| && Call(ask, at + n) == Answer(m)
    ensures Filled(ask, at, batches, n + 1, merged + Kept(m, batches[n]), dropped + Lost(m, batches[n]))
  {
    OneMoreBatch(ask, at, batches, n, m, batches[n]);
    assert Answered(ask, at, at + (n + 1));
  }

  lemma OneUnanswered<V>(ask: Oracle<V>, from: nat, to: nat, i: nat)
    requires from <= i < to && !Call(ask, i).Answer?
    ensures !Answered(ask, from, to)
  {
  }

  method FillDocument<V>(ask: Oracle<V>, at: nat, batches: seq<seq<Slot>>)
    returns (ok: bool, merged: map<string, V>, dropped: int)
    ensures ok <==> Answered(ask, at, at + |batches|)
    ensures ok ==> merged == Merged(ask, at, batches, |batches|) && dropped == Dropped(ask, at, batches, |batches|)
  {
    merged, dropped := map[], 0;
    for i := 0 to |batches|
      invariant Filled(ask, at, batches, i, merged, dropped)
    {
      var raw := Call(ask, at + i);
      if !raw.Answer? {
        OneUnanswered(ask, at, at + |batches|, at + i);
        return false, merged, dropped;
      }
      OneMoreFilled(ask, at, batches, i, merged, dropped, raw.m);
      merged, dropped := merged + Kept(raw.m, batches[i]), dropped + Lost(raw.m, batches[i]);
    }
    ok := true;
  }

  // ---- all documents -----------------------------------------------------

  /** The calls made for `docs` documents. */
  function Calls(docs: nat, batches: nat): nat {
    if docs == 0 then 0 else Calls(docs - 1, batches) + batches
  }

  function AllDropped<V>(ask: Oracle<V>, docs: nat, batches: seq<seq<Slot>>): int {
    if docs == 0 then 0
    else AllDropped(ask, docs - 1, batches) + Dropped(ask, Calls(docs - 1, |batches|), batches, |batches|)
  }

  lemma {:induction false} CallsGrow(d: nat, n: nat, k: nat)
    requires d <= n
    ensures Calls(d, k) <= Calls(n, k)
    decreases n
  {
    if d < n { CallsGrow(d, n - 1, k); }
  }

  lemma {:induction false} CallsAre(docs: nat, k: nat)
    ensures Calls(docs, k) == docs * k
  {
    if docs > 0 { CallsAre(docs - 1, k); }
  }

  // ---- what a document is told ---------------------------------------------

  /** With distinct names a slot is in one batch only. */
  lemma {:induction false} OneBatch(slots: seq<Slot>, i: nat, j: nat, name: string)
    requires DistinctNames(slots) && i < |Batches(slots)| && j < |Batches(slots)|
    requires name in SlotNames(Batches(slots)[i]) && name in SlotNames(Batches(slots)[j])
    ensures i == j
    decreases |slots|
  {
    if |slots| > SLOT_BATCH_SIZE {
      var first, rest := slots[..SLOT_BATCH_SIZE], slots[SLOT_BATCH_SIZE..];
      assert slots == first + rest;
      if i > 0 && j > 0 {
        OneBatch(rest, i - 1, j - 1, name);
      } else if i > 0 {
        NotInBoth(slots, i - 1, name);
      } else if j > 0 {
        NotInBoth(slots, j - 1, name);
      }
    }
  }

  lemma NotInBoth(slots: seq<Slot>, i: nat, name: string)
    requires |slots| > SLOT_BATCH_SIZE && i < |Batches(slots[SLOT_BATCH_SIZE..])|
    requires name in SlotNames(Batches(slots[SLOT_BATCH_SIZE..])[i]) && name in SlotNames(slots[..SLOT_BATCH_SIZE])
    ensures !DistinctNames(slots)
  {
    var first, rest := slots[..SLOT_BATCH_SIZE], slots[SLOT_BATCH_SIZE..];
    var s :| s in first && s.name == name;
    var t :| t in Batches(rest)[i] && t.name == name;
    BatchesHold(rest, t);
    var p :| 0 <= p < |first| && first[p] == s;
    var q :| 0 <= q < |rest| && rest[q] == t;
    assert slots[p] == s && slots[SLOT_BATCH_SIZE + q] == t;
  }

  /** The `b`-th batch asks for `k` and its answer has it. */
  predicate Brings<V(==)>(ask: Oracle<V>, at: nat, batches: seq<seq<Slot>>, b: nat, k: string, v: V) {
    && b < |batches| && k in SlotNames(batches[b])
    && Call(ask, at + b).Answer? && k in Call(ask, at + b).m && Call(ask, at + b).m[k] == v
  }

  /** What has been merged some batch has brought. */
  lemma {:induction false} MergedBrought<V>(ask: Oracle<V>, at: nat, batches: seq<seq<Slot>>, n: nat, k: string)
    requires n <= |batches| && k in Merged(ask, at, batches, n)
    ensures exists b: nat :: b < n && Brings(ask, at, batches, b, k, Merged(ask, at, batches, n)[k])
  {
    var more := Kept(Body(Call(ask, at + (n - 1))), batches[n - 1]);
    if k in more {
      assert Brings(ask, at, batches, n - 1, k, Merged(ask, at, batches, n)[k]);
    } else {
      MergedBrought(ask, at, batches, n - 1, k);
    }
  }

  /** What a batch brings stays, unless a later one asks for the same name. */
  lemma {:induction false} BroughtMerged<V>(ask: Oracle<V>, at: nat, batches: seq<seq<Slot>>, n: nat, b: nat, k: string, v: V)
    requires b < n <= |batches| && Brings(ask, at, batches, b, k, v)
    requires forall j :: b < j < n ==> k !in SlotNames(batches[j])
    ensures k in Merged(ask, at, batches, n) && Merged(ask, at, batches, n)[k] == v
  {
    if b < n - 1 { BroughtMerged(ask, at, batches, n - 1, b, k, v); }
  }

  // ---- what was not asked for does not matter ----------------------------

  /** The replies are alike on the batch's slots. */
  ghost predicate AlikeOn<V>(a: Reply<V>, b: Reply<V>, batch: seq<Slot>) {
    Kept(Body(a), batch) == Kept(Body(b), batch)
  }

  ghost predicate Alike<V>(ask: Oracle<V>, other: Oracle<V>, docs: nat, batches: seq<seq<Slot>>) {
    && (forall j: nat :: Call(ask, j).Answer? <==> Call(other, j).Answer?)
    && forall d: nat, i: nat :: d < docs && i < |batches| ==>
         AlikeOn(Call(ask, Calls(d, |batches|) + i), Call(other, Calls(d, |batches|) + i), batches[i])
  }

  lemma {:induction false} MergedAlike<V>(ask: Oracle<V>, other: Oracle<V>, docs: nat, d: nat, batches: seq<seq<Slot>>, n: nat)
    requires Alike(ask, other, docs, batches) && d < docs && n <= |batches|
    ensures Merged(ask, Calls(d, |batches|), batches, n) == Merged(other, Calls(d, |batches|), batches, n)
  {
    if n > 0 {
      MergedAlike(ask, other, docs, d, batches, n - 1);
      assert AlikeOn(Call(ask, Calls(d, |batches|) + (n - 1)), Call(other, Calls(d, |batches|) + (n - 1)), batches[n - 1]);
    }
  }
}
