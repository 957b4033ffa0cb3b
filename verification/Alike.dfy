/** Blocks that differ in tx_bytes only. The loader fills that field in where it is missing
    (src/node.py:153-157); no check looks at it but the block's own hash and size. */
module Likeness {
  import opened Prelude
  import opened Types
  import opened Ledgers
  import opened TxRules
  import opened Difficulty
  import opened BlockRules
  import opened Chains

  predicate Alike(b: Block, c: Block) {
    b.(txBytes := None) == c.(txBytes := None)
  }

  ghost predicate AlikeAll(a: seq<Block>, b: seq<Block>) {
    |a| == |b| && forall i :: 0 <= i < |a| ==> Alike(a[i], b[i])
  }

  /** Chain states with the same ledger and work, on chains alike. */
  ghost predicate AlikeStates(c: ChainState, d: ChainState) {
    AlikeAll(c.chain, d.chain) && c.ledger == d.ledger && c.work == d.work
  }

  lemma AlikeFields(b: Block, c: Block)
    requires Alike(b, c)
    ensures b.height == c.height && b.previousHash == c.previousHash && b.timestamp == c.timestamp && b.txs == c.txs
    ensures b.builder == c.builder && b.vdfOutput == c.vdfOutput && b.vdfProof == c.vdfProof
    ensures b.vdfIterations == c.vdfIterations && b.hash == c.hash
    ensures TieBreakKey(b) == TieBreakKey(c)
    ensures b.txBytes == c.txBytes ==> b == c
  {
    var b0, c0 := b.(txBytes := None), c.(txBytes := None);
    assert b == b0.(txBytes := b.txBytes) && c == c0.(txBytes := c.txBytes);
    assert b0.height == c0.height && b0.previousHash == c0.previousHash && b0.timestamp == c0.timestamp;
    assert b0.txs == c0.txs && b0.builder == c0.builder && b0.vdfOutput == c0.vdfOutput;
    assert b0.vdfProof == c0.vdfProof && b0.vdfIterations == c0.vdfIterations && b0.hash == c0.hash;
  }

  lemma AlikeSelf(a: seq<Block>)
    ensures AlikeAll(a, a)
  {
  }

  lemma AlikeTurned(a: seq<Block>, b: seq<Block>)
    requires AlikeAll(a, b)
    ensures AlikeAll(b, a)
  {
  }

  lemma AlikeThrough(a: seq<Block>, b: seq<Block>, c: seq<Block>)
    requires AlikeAll(a, b) && AlikeAll(b, c)
    ensures AlikeAll(a, c)
  {
  }

  lemma AlikeTake(a: seq<Block>, b: seq<Block>, n: nat)
    requires AlikeAll(a, b) && n <= |a|
    ensures AlikeAll(a[..n], b[..n])
  {
  }

  lemma AlikeJoin(a: seq<Block>, b: seq<Block>, x: seq<Block>, y: seq<Block>)
    requires AlikeAll(a, b) && AlikeAll(x, y)
    ensures AlikeAll(a + x, b + y)
  {
  }

  // ------------------------------------------------------------------- replay, work, fork choice

  lemma AlikeReplayBlock(l: Ledger, b: Block, c: Block)
    requires Alike(b, c)
    ensures ReplayBlock(l, b) == ReplayBlock(l, c)
  {
    AlikeFields(b, c);
    hide Alike;
    assert BlockFees(b) == BlockFees(c);
  }

  lemma {:induction false} AlikeReplay(a: seq<Block>, b: seq<Block>)
    requires AlikeAll(a, b)
    ensures Replay(a) == Replay(b) && CumulativeIterations(a) == CumulativeIterations(b)
    decreases |a|
  {
    if a != [] {
      var k := |a| - 1;
      AlikeTake(a, b, k);
      AlikeReplay(a[..k], b[..k]);
      AlikeFields(a[k], b[k]);
      if Replay(a[..k]).Done? {
        AlikeReplayBlock(Replay(a[..k]).ledger, a[k], b[k]);
      }
      hide AlikeAll, ReplayBlock;
    }
  }

  lemma {:induction false} AlikeFromChain(a: seq<Block>, b: seq<Block>)
    requires AlikeAll(a, b)
    ensures FromChain(a).Some? == FromChain(b).Some?
    ensures FromChain(a).Some? ==> AlikeStates(FromChain(a).value, FromChain(b).value)
    ensures LedgerOf(a) == LedgerOf(b) && CumulativeIterations(a) == CumulativeIterations(b)
  {
    AlikeReplay(a, b);
  }

  lemma AlikeBetter(a: ChainState, b: ChainState, c: ChainState, d: ChainState)
    requires a.chain != [] && b.chain != [] && AlikeAll(a.chain, c.chain) && AlikeAll(b.chain, d.chain)
    requires a.work == c.work && b.work == d.work
    ensures c.chain != [] && d.chain != [] && IsBetter(a, b) == IsBetter(c, d)
  {
    AlikeFields(a.Tip(), c.Tip());
    AlikeFields(b.Tip(), d.Tip());
  }

  // -------------------------------------------------------------------------------- validation

  lemma AlikeGaps(a: seq<Block>, b: seq<Block>, lo: nat, hi: nat)
    requires AlikeAll(a, b) && 1 <= lo <= hi <= |a|
    ensures Gaps(a, lo, hi) == Gaps(b, lo, hi)
  {
    forall i | 0 <= i < hi - lo ensures Gaps(a, lo, hi)[i] == Gaps(b, lo, hi)[i] {
      AlikeFields(a[lo + i], b[lo + i]);
      AlikeFields(a[lo + i - 1], b[lo + i - 1]);
    }
  }

  lemma AlikeWindow(a: seq<Block>, b: seq<Block>, start: nat, end: nat)
    requires AlikeAll(a, b) && start <= end && 1 <= end <= |a|
    ensures FastWindow(a, start, end) == FastWindow(b, start, end)
  {
    if start < end || end > 1 {
      AlikeGaps(a, b, if start > 1 then start else 1, end);
    } else {
      AlikeGaps(a, b, 1, 1);
    }
    hide AlikeAll, Gaps, Median;
  }

  lemma AlikeIterations(a: seq<Block>, b: seq<Block>)
    requires AlikeAll(a, b)
    ensures GetVdfIterations(a) == GetVdfIterations(b)
  {
    var next := |a|;
    if next >= INTERVAL {
      var last := (next / INTERVAL) * INTERVAL;
      if next > last {
        AlikeFields(a[last], b[last]);
      } else {
        var start := last - INTERVAL;
        AlikeFields(a[start], b[start]);
        AlikeWindow(a, b, start, last);
        hide AlikeAll, FastWindow, Bump;
      }
    }
  }

  lemma AlikeTip(a: seq<Block>, b: seq<Block>)
    requires AlikeAll(a, b) && a != []
    ensures
      var x, y := a[|a| - 1], b[|b| - 1];
      x.height == y.height && x.hash == y.hash && x.timestamp == y.timestamp
  {
    AlikeFields(a[|a| - 1], b[|b| - 1]);
  }

  /** No check of a block looks at the tx_bytes of the chain before it. */
  lemma AlikeHeader(e: Env, b: Block, chain: seq<Block>, like: seq<Block>, now: Instant)
    requires AlikeAll(chain, like)
    ensures CheckHeader(e, b, chain, now) == CheckHeader(e, b, like, now)
  {
    AlikeIterations(chain, like);
    if chain != [] {
      AlikeTip(chain, like);
    }
    hide AlikeAll, GetVdfIterations, BlockSize, CheckHash;
  }

  lemma AlikeExtends(e: Env, b: Block, l: Ledger, chain: seq<Block>, like: seq<Block>)
    requires AlikeAll(chain, like)
    ensures Extends(e, b, l, chain) == Extends(e, b, l, like)
  {
    AlikeIterations(chain, like);
    if chain != [] {
      AlikeTip(chain, like);
    }
    hide AlikeAll, GetVdfIterations, BlockSize, RunTxs;
  }

  lemma AlikeAccepted(e: Env, cs: ChainState, ds: ChainState, b: Block, now: Instant)
    requires AlikeStates(cs, ds)
    ensures Accepted(e, cs, b, now).Some? == Accepted(e, ds, b, now).Some?
    ensures Accepted(e, cs, b, now).Some? ==> AlikeStates(Accepted(e, cs, b, now).value, Accepted(e, ds, b, now).value)
  {
    AlikeHeader(e, b, cs.chain, ds.chain, now);
    AlikeSelf([b]);
    AlikeJoin(cs.chain, ds.chain, [b], [b]);
    hide AlikeAll, CheckHeader, Settle, ApplyTransactions;
  }
}
