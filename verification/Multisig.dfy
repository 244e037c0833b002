/** The host's k-of-n signature check over packed lists (host_crypto_mbedtls.c). */
module Multisig {
  import opened Prelude

  /** The bytes from a pointer on. */
  type Memory = nat -> byte

  /** Whether a key verifies a signature over the message at hand: checksig. */
  type Checksig = (seq<byte>, seq<byte>) -> bool

  const KEY_STRIDE := 72
  const SIG_STRIDE := 80

  /** Where a list of count items must end: count * stride in 32-bit arithmetic. */
  function Bound(count: nat, stride: nat): nat {
    count * stride % 0x1_0000_0000
  }

  // ── Packed lists ───────────────────────────────────────────────────

  function Stretch(mem: Memory, at: nat, n: nat): (s: seq<byte>)
    ensures |s| == n
  {
    seq(n, i requires 0 <= i < n => mem(at + i))
  }

  /** The item at a cursor: a length byte and that many bytes, all before end. */
  function ItemAt(mem: Memory, at: nat, end: nat): Option<seq<byte>> {
    if at >= end || at + 1 + mem(at) > end then None else Some(Stretch(mem, at + 1, mem(at)))
  }

  /** The items a cursor can read, up to count of them. */
  function Readable(mem: Memory, at: nat, end: nat, count: nat): (items: seq<seq<byte>>)
    ensures |items| <= count
    decreases count
  {
    var item := ItemAt(mem, at, end);
    if count == 0 || item.None? then [] else [item.value] + Readable(mem, at + 1 + |item.value|, end, count - 1)
  }

  /** The memory at `at` holds these items, packed. */
  ghost predicate Holds(mem: Memory, at: nat, items: seq<seq<byte>>)
    decreases |items|
  {
    items == [] || (mem(at) == |items[0]| && Stretch(mem, at + 1, |items[0]|) == items[0]
                    && Holds(mem, at + 1 + |items[0]|, items[1..]))
  }

  function PackedSize(items: seq<seq<byte>>): nat {
    if items == [] then 0 else 1 + |items[0]| + PackedSize(items[1..])
  }

  /** Packed items are all read exactly when they end by the bound. */
  lemma {:induction false} PackedIsReadable(mem: Memory, at: nat, end: nat, items: seq<seq<byte>>)
    requires Holds(mem, at, items)
    ensures Readable(mem, at, end, |items|) == items <==> items == [] || at + PackedSize(items) <= end
    decreases |items|
  {
    if items != [] {
      var next := at + 1 + |items[0]|;
      PackedIsReadable(mem, next, end, items[1..]);
      var r := Readable(mem, at, end, |items|);
      assert r == items ==> |r| > 0 && r[1..] == items[1..];
      assert items == [items[0]] + items[1..];
    }
  }

  lemma {:induction false} PackedSizeFits(items: seq<seq<byte>>, stride: nat)
    requires forall i :: 0 <= i < |items| ==> |items[i]| < stride
    ensures PackedSize(items) <= |items| * stride
  {
    if items != [] {
      PackedSizeFits(items[1..], stride);
      assert |items| * stride == (|items| - 1) * stride + stride;
    }
  }

  // ── Matchings ──────────────────────────────────────────────────────

  /** Signature i is verified by key m[i], and keys are used in order, each at most once. */
  ghost predicate IsMatching(m: seq<nat>, sigs: seq<seq<byte>>, keys: seq<seq<byte>>, verifies: Checksig) {
    && |m| == |sigs|
    && (forall i, j :: 0 <= i < j < |m| ==> m[i] < m[j])
    && (forall i :: 0 <= i < |m| ==> m[i] < |keys| && verifies(keys[m[i]], sigs[i]))
  }

  ghost predicate CanMatch(sigs: seq<seq<byte>>, keys: seq<seq<byte>>, verifies: Checksig) {
    exists m :: IsMatching(m, sigs, keys, verifies)
  }

  /** The forward scan: give each signature the first remaining key that verifies it. */
  predicate Greedy(sigs: seq<seq<byte>>, keys: seq<seq<byte>>, verifies: Checksig)
    decreases |keys|
  {
    sigs == [] || (keys != [] &&
                   Greedy(if verifies(keys[0], sigs[0]) then sigs[1..] else sigs, keys[1..], verifies))
  }

  function Shifted(m: seq<nat>): (r: seq<nat>)
    ensures |r| == |m|
  {
    seq(|m|, i requires 0 <= i < |m| => m[i] + 1)
  }

  function Unshifted(m: seq<nat>): (r: seq<nat>)
    requires forall i :: 0 <= i < |m| ==> m[i] > 0
    ensures |r| == |m|
  {
    seq(|m|, i requires 0 <= i < |m| => m[i] - 1)
  }

  lemma WithFirstKey(m: seq<nat>, sigs: seq<seq<byte>>, keys: seq<seq<byte>>, verifies: Checksig)
    requires keys != [] && IsMatching(m, sigs, keys[1..], verifies)
    ensures IsMatching(Shifted(m), sigs, keys, verifies)
  {
  }

  lemma FirstKeyUsed(m: seq<nat>, sigs: seq<seq<byte>>, keys: seq<seq<byte>>, verifies: Checksig)
    requires keys != [] && sigs != [] && verifies(keys[0], sigs[0]) && IsMatching(m, sigs[1..], keys[1..], verifies)
    ensures IsMatching([0] + Shifted(m), sigs, keys, verifies)
  {
    var t := [0] + Shifted(m);
    forall i | 0 < i < |t| ensures t[i] == m[i - 1] + 1 && t[i] < |keys| && verifies(keys[t[i]], sigs[i]) {
      assert keys[1..][m[i - 1]] == keys[t[i]] && sigs[1..][i - 1] == sigs[i];
    }
  }

  lemma {:induction false} GreedyFinds(sigs: seq<seq<byte>>, keys: seq<seq<byte>>, verifies: Checksig)
    returns (m: seq<nat>)
    requires Greedy(sigs, keys, verifies)
    ensures IsMatching(m, sigs, keys, verifies)
    decreases |keys|
  {
    if sigs == [] {
      m := [];
    } else if verifies(keys[0], sigs[0]) {
      var rest := GreedyFinds(sigs[1..], keys[1..], verifies);
      m := [0] + Shifted(rest);
      FirstKeyUsed(rest, sigs, keys, verifies);
    } else {
      var rest := GreedyFinds(sigs, keys[1..], verifies);
      m := Shifted(rest);
      WithFirstKey(rest, sigs, keys, verifies);
    }
  }

  /** A matching that leaves the first key alone is a matching of the other keys. */
  lemma WithoutFirstKey(m: seq<nat>, sigs: seq<seq<byte>>, keys: seq<seq<byte>>, verifies: Checksig)
    requires IsMatching(m, sigs, keys, verifies) && keys != []
    requires forall i :: 0 <= i < |m| ==> m[i] > 0
    ensures IsMatching(Unshifted(m), sigs, keys[1..], verifies)
  {
  }

  /** Later signatures never use the first key. */
  lemma TailAvoidsFirstKey(m: seq<nat>, sigs: seq<seq<byte>>, keys: seq<seq<byte>>, verifies: Checksig)
    requires IsMatching(m, sigs, keys, verifies) && sigs != []
    ensures IsMatching(m[1..], sigs[1..], keys, verifies) && forall i :: 0 <= i < |m[1..]| ==> m[1..][i] > 0
  {
    forall i | 0 <= i < |m[1..]| ensures m[1..][i] > 0 && m[1..][i] < |keys|
        && verifies(keys[m[1..][i]], sigs[1..][i]) {
      assert m[0] < m[i + 1] && sigs[1..][i] == sigs[i + 1];
    }
  }

  lemma {:induction false} GreedyNeverMisses(sigs: seq<seq<byte>>, keys: seq<seq<byte>>, verifies: Checksig,
      m: seq<nat>)
    requires IsMatching(m, sigs, keys, verifies)
    ensures Greedy(sigs, keys, verifies)
    decreases |keys|
  {
    if sigs != [] {
      assert m[0] < |keys|;
      if verifies(keys[0], sigs[0]) {
        TailAvoidsFirstKey(m, sigs, keys, verifies);
        WithoutFirstKey(m[1..], sigs[1..], keys, verifies);
        GreedyNeverMisses(sigs[1..], keys[1..], verifies, Unshifted(m[1..]));
      } else {
        assert forall i :: 0 <= i < |m| ==> m[i] > 0;
        WithoutFirstKey(m, sigs, keys, verifies);
        GreedyNeverMisses(sigs, keys[1..], verifies, Unshifted(m));
      }
    }
  }

  /** The scan succeeds exactly when some in-order matching exists. */
  lemma GreedyIsExact(sigs: seq<seq<byte>>, keys: seq<seq<byte>>, verifies: Checksig)
    ensures Greedy(sigs, keys, verifies) <==> CanMatch(sigs, keys, verifies)
  {
    if Greedy(sigs, keys, verifies) {
      var m := GreedyFinds(sigs, keys, verifies);
    }
    if CanMatch(sigs, keys, verifies) {
      var m :| IsMatching(m, sigs, keys, verifies);
      GreedyNeverMisses(sigs, keys, verifies, m);
    }
  }

  // ── The check ──────────────────────────────────────────────────────

  method ReadItem(mem: Memory, cursor: nat, end: nat) returns (item: Option<seq<byte>>, next: nat)
    ensures item == ItemAt(mem, cursor, end)
    ensures item.Some? ==> next == cursor + 1 + |item.value|
  {
    next := cursor;
    if cursor >= end {
      return None, next;
    }
    var len := mem(cursor);
    next := next + 1;
    if next + len > end {
      return None, next;
    }
    item := Some(Stretch(mem, next, len));
    next := next + len;
  }

  /** The first threshold signatures are readable, and match readable keys in order. */
  ghost predicate Satisfied(pks: Memory, pksCount: nat, sigs: Memory, sigsCount: nat, threshold: nat,
      verifies: Checksig)
  {
    var s := Readable(sigs, 0, Bound(sigsCount, SIG_STRIDE), threshold);
    |s| == threshold && CanMatch(s, Readable(pks, 0, Bound(pksCount, KEY_STRIDE), pksCount), verifies)
  }

  /** The scan of these signatures succeeds, and there are as many as needed. */
  ghost predicate Left(s: seq<seq<byte>>, need: nat, keys: seq<seq<byte>>, verifies: Checksig) {
    |s| == need && Greedy(s, keys, verifies)
  }

  /** One step of the scan. */
  lemma FirstKey(sig: seq<byte>, rest: seq<seq<byte>>, key: seq<byte>, after: seq<seq<byte>>, need: nat,
      verifies: Checksig)
    requires need > 0
    ensures Left([sig] + rest, need, [key] + after, verifies)
       <==> if verifies(key, sig) then Left(rest, need - 1, after, verifies)
           else Left([sig] + rest, need, after, verifies)
  {
    assert ([key] + after)[1..] == after && ([sig] + rest)[1..] == rest;
  }

  /** Nothing left to match, or nothing left to match it with. */
  lemma ScanEnds(s: seq<seq<byte>>, need: nat, keys: seq<seq<byte>>, verifies: Checksig)
    ensures s == [] || keys == [] ==> (Left(s, need, keys, verifies) <==> s == [] && need == 0)
  {
  }

  lemma NextItem(mem: Memory, at: nat, end: nat, count: nat)
    ensures var items, item := Readable(mem, at, end, count), ItemAt(mem, at, end);
            if count == 0 || item.None? then items == []
            else items == [item.value] + Readable(mem, at + 1 + |item.value|, end, count - 1)
  {
  }

  method CheckMultisig(ready: bool, pks: Memory, pksCount: nat, sigs: Memory, sigsCount: nat, threshold: nat,
      verifies: Checksig)
    returns (ok: bool)
    ensures ok <==> ready && (threshold == 0 || (threshold <= sigsCount
                                                 && Satisfied(pks, pksCount, sigs, sigsCount, threshold, verifies)))
  {
    if !ready {
      return false;
    }
    if threshold == 0 {
      return true;
    }
    if sigsCount < threshold {
      return false;
    }
    ok := ScanLists(pks, Bound(pksCount, KEY_STRIDE), pksCount, sigs, Bound(sigsCount, SIG_STRIDE), threshold,
        verifies);
    GreedyIsExact(Readable(sigs, 0, Bound(sigsCount, SIG_STRIDE), threshold),
                  Readable(pks, 0, Bound(pksCount, KEY_STRIDE), pksCount), verifies);
  }

  /** The two cursors: each signature walks forward through the keys until one verifies it. */
  method ScanLists(pks: Memory, pkEnd: nat, pksCount: nat, sigs: Memory, sigEnd: nat, threshold: nat,
      verifies: Checksig)
    returns (ok: bool)
    ensures ok <==> Left(Readable(sigs, 0, sigEnd, threshold), threshold, Readable(pks, 0, pkEnd, pksCount), verifies)
  {
    hide *;
    var pkCursor, sigCursor, verified, remaining := 0, 0, 0, pksCount;
    ghost var goal := Left(Readable(sigs, 0, sigEnd, threshold), threshold, Readable(pks, 0, pkEnd, pksCount),
        verifies);
    while verified < threshold && remaining > 0
      invariant verified <= threshold
      invariant goal <==> Left(Readable(sigs, sigCursor, sigEnd, threshold - verified), threshold - verified,
                               Readable(pks, pkCursor, pkEnd, remaining), verifies)
      decreases threshold - verified
    {
      ghost var need := threshold - verified;
      NextItem(sigs, sigCursor, sigEnd, need);
      var sig, nextSig := ReadItem(sigs, sigCursor, sigEnd);
      if sig.None? {
        ScanEnds([], need, Readable(pks, pkCursor, pkEnd, remaining), verifies);
        return false;
      }
      sigCursor := nextSig;
      ghost var rest := Readable(sigs, sigCursor, sigEnd, need - 1);
      var consumed := false;
      while remaining > 0
        invariant !consumed && verified == threshold - need
        invariant goal <==> Left([sig.value] + rest, need, Readable(pks, pkCursor, pkEnd, remaining), verifies)
      {
        NextItem(pks, pkCursor, pkEnd, remaining);
        var key, nextKey := ReadItem(pks, pkCursor, pkEnd);
        if key.None? {
          ScanEnds([sig.value] + rest, need, [], verifies);
          return false;
        }
        FirstKey(sig.value, rest, key.value, Readable(pks, nextKey, pkEnd, remaining - 1), need, verifies);
        pkCursor, remaining := nextKey, remaining - 1;
        if verifies(key.value, sig.value) {
          verified := verified + 1;
          consumed := true;
          break;
        }
      }
      if !consumed {
        NextItem(pks, pkCursor, pkEnd, 0);
        ScanEnds([sig.value] + rest, need, [], verifies);
        return false;
      }
    }
    NextItem(sigs, sigCursor, sigEnd, 0);
    NextItem(pks, pkCursor, pkEnd, 0);
    ScanEnds(Readable(sigs, sigCursor, sigEnd, threshold - verified), threshold - verified,
             Readable(pks, pkCursor, pkEnd, remaining), verifies);
    ok := verified >= threshold;
  }

  /** A prefix of a readable list is readable. */
  lemma {:induction false} ReadablePrefix(mem: Memory, at: nat, end: nat, count: nat, k: nat)
    requires k <= |Readable(mem, at, end, count)|
    ensures Readable(mem, at, end, k) == Readable(mem, at, end, count)[..k]
    decreases k
  {
    if k > 0 {
      ReadablePrefix(mem, at + 1 + mem(at), end, count - 1, k - 1);
    }
  }

  /**
   * Lists that end by their bounds: the check is exactly whether an in-order matching of
   * the first signatures exists.
   */
  lemma PackedCheckIsExact(pks: Memory, keys: seq<seq<byte>>, sigs: Memory, items: seq<seq<byte>>, threshold: nat,
      verifies: Checksig)
    requires Holds(pks, 0, keys) && PackedSize(keys) <= Bound(|keys|, KEY_STRIDE)
    requires Holds(sigs, 0, items) && PackedSize(items) <= Bound(|items|, SIG_STRIDE)
    requires threshold <= |items|
    ensures Satisfied(pks, |keys|, sigs, |items|, threshold, verifies) <==> CanMatch(items[..threshold], keys, verifies)
  {
    PackedIsReadable(pks, 0, Bound(|keys|, KEY_STRIDE), keys);
    PackedIsReadable(sigs, 0, Bound(|items|, SIG_STRIDE), items);
    ReadablePrefix(sigs, 0, Bound(|items|, SIG_STRIDE), |items|, threshold);
  }

  /** Keys of at most 71 bytes and signatures of at most 79 always do, while the bounds do not wrap. */
  lemma CheckIsExact(pks: Memory, keys: seq<seq<byte>>, sigs: Memory, items: seq<seq<byte>>, threshold: nat,
      verifies: Checksig)
    requires Holds(pks, 0, keys) && forall i :: 0 <= i < |keys| ==> |keys[i]| < KEY_STRIDE
    requires Holds(sigs, 0, items) && forall i :: 0 <= i < |items| ==> |items[i]| < SIG_STRIDE
    requires |keys| * KEY_STRIDE <= U32_MAX && |items| * SIG_STRIDE <= U32_MAX
    requires threshold <= |items|
    ensures Satisfied(pks, |keys|, sigs, |items|, threshold, verifies) <==> CanMatch(items[..threshold], keys, verifies)
  {
    PackedSizeFits(keys, KEY_STRIDE);
    PackedSizeFits(items, SIG_STRIDE);
    PackedCheckIsExact(pks, keys, sigs, items, threshold, verifies);
  }
}
