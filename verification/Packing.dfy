/** src/block.py assemble: packing pending transactions into a block. */
module Packing {
  import opened Params
  import opened Prelude
  import opened Types
  import opened Ledgers
  import opened TxRules
  import opened BlockRules

  function NonceKey(): Tx -> real {
    (t: Tx) => t.nonce as real
  }

  /** One sender's pending transactions in nonce order. */
  function Group(txs: seq<Tx>, a: Address): seq<Tx> {
    SortBy(Filter(txs, By(a)), NonceKey())
  }

  /** The senders of txs, in order of first appearance (the key order of by_sender). */
  function Senders(txs: seq<Tx>): seq<Address> {
    if txs == [] then []
    else
      var before := Senders(txs[..|txs| - 1]);
      if txs[|txs| - 1].from in before then before else before + [txs[|txs| - 1].from]
  }

  function GroupFrom(txs: seq<Tx>): Address -> seq<Tx> {
    (a: Address) => Group(txs, a)
  }

  /** Groups go by the fee rate of their lead transaction, best first. */
  function LeadKey(e: Env): seq<Tx> -> real {
    (g: seq<Tx>) => if g == [] then 0.0 else -FeeRate(e, g[0])
  }

  function Groups(e: Env, txs: seq<Tx>): seq<seq<Tx>> {
    SortBy(MapSeq(Senders(txs), GroupFrom(txs)), LeadKey(e))
  }

  /** The packing loop's variables. budget counts the transactions looked at before the deadline
      passes; None is no deadline. */
  datatype Pack = Pack(txs: seq<Tx>, running: int, budget: Option<nat>, hitDeadline: bool)

  /** The inner loop: one sender's group, stopping at the first transaction that does not fit. */
  function PackGroup(e: Env, g: seq<Tx>, p: Pack): Pack
    decreases |g|
  {
    if g == [] then p
    else if p.budget == Some(0) then p.(hitDeadline := true)
    else
      var size := TxSizeInBlock(e, g[0], |p.txs|);
      var budget := if p.budget.Some? then Some(p.budget.value - 1) else None;
      if p.running + size > BLOCK_SIZE_LIMIT then p.(budget := budget)
      else PackGroup(e, g[1..], Pack(p.txs + [g[0]], p.running + size, budget, p.hitDeadline))
  }

  /** The outer loop. */
  function PackGroups(e: Env, groups: seq<seq<Tx>>, p: Pack): Pack
    decreases |groups|
  {
    if groups == [] || p.hitDeadline then p
    else PackGroups(e, groups[1..], PackGroup(e, groups[0], p))
  }

  /** The block before its transactions: create(...) without VDF fields. */
  function Skeleton(e: Env, tip: Block, builder: Address, iterations: int, now: Instant): Block {
    var b := Block(tip.height + 1, tip.hash, now, [], Some(builder), None, None, None, iterations, None, "");
    b.(hash := BlockHash(e, b))
  }

  /** What assemble returns; the empty hash stands for the deleted field. */
  function Assembled(e: Env, tip: Block, txs: seq<Tx>, builder: Address, iterations: int,
                     budget: Option<nat>, now: Instant): Block {
    var s := Skeleton(e, tip, builder, iterations, now);
    var base := BlockSize(e, s);
    var p := PackGroups(e, Groups(e, txs), Pack([], base, budget, false));
    s.(txs := p.txs, txBytes := Some(p.running - base), hash := "")
  }

  // ------------------------------------------------------------------------------ the algorithm

  /** by_sender after the first transactions have been filed, at one address. */
  ghost predicate FiledAt(txs: seq<Tx>, senders: seq<Address>, bySender: map<Address, seq<Tx>>, a: Address) {
    && (a in bySender <==> a in senders)
    && (if a in bySender then bySender[a] else []) == Filter(txs, By(a))
  }

  ghost predicate Filed(txs: seq<Tx>, senders: seq<Address>, bySender: map<Address, seq<Tx>>) {
    senders == Senders(txs) && forall a :: FiledAt(txs, senders, bySender, a)
  }

  lemma {:induction false} FilterOneMore(txs: seq<Tx>, t: Tx, a: Address)
    ensures Filter(txs + [t], By(a)) == Filter(txs, By(a)) + if t.from == a then [t] else []
  {
    FilterConcat(txs, [t], By(a));
  }

  lemma {:induction false} SendersOneMore(txs: seq<Tx>, t: Tx)
    ensures Senders(txs + [t]) == if t.from in Senders(txs) then Senders(txs) else Senders(txs) + [t.from]
  {
    assert (txs + [t])[..|txs|] == txs;
  }

  lemma FileOne(txs: seq<Tx>, t: Tx, senders: seq<Address>, bySender: map<Address, seq<Tx>>)
    requires Filed(txs, senders, bySender)
    ensures var had := if t.from in bySender then bySender[t.from] else [];
      Filed(txs + [t], if t.from in bySender then senders else senders + [t.from], bySender[t.from := had + [t]])
  {
    var had := if t.from in bySender then bySender[t.from] else [];
    var after := bySender[t.from := had + [t]];
    var others := if t.from in bySender then senders else senders + [t.from];
    SendersOneMore(txs, t);
    assert FiledAt(txs, senders, bySender, t.from);
    forall a ensures FiledAt(txs + [t], others, after, a) {
      FilterOneMore(txs, t, a);
      assert FiledAt(txs, senders, bySender, a);
    }
  }

  /** The loop filling by_sender; senders is its key order. */
  method GroupBySender(txs: seq<Tx>) returns (senders: seq<Address>, bySender: map<Address, seq<Tx>>)
    ensures Filed(txs, senders, bySender)
  {
    senders, bySender := [], map[];
    assert forall a :: FiledAt([], [], map[], a);
    hide FiledAt;
    var i := 0;
    while i < |txs|
      invariant 0 <= i <= |txs|
      invariant Filed(txs[..i], senders, bySender)
    {
      var t := txs[i];
      FileOne(txs[..i], t, senders, bySender);
      hide Filed;
      assert txs[..i + 1] == txs[..i] + [t];
      if t.from in bySender {
        bySender := bySender[t.from := bySender[t.from] + [t]];
      } else {
        senders := senders + [t.from];
        bySender := bySender[t.from := [] + [t]];
      }
      i := i + 1;
    }
    assert txs[..i] == txs;
  }

  /** The groups of by_sender, each sorted by nonce, then sorted against each other. */
  method SortGroups(e: Env, txs: seq<Tx>) returns (groups: seq<seq<Tx>>)
    ensures groups == Groups(e, txs)
  {
    var senders, bySender := GroupBySender(txs);
    hide Filter, SortBy, Senders;
    groups := [];
    var s := 0;
    while s < |senders|
      invariant 0 <= s <= |senders|
      invariant groups == MapSeq(senders[..s], GroupFrom(txs))
    {
      assert senders[s] in senders && FiledAt(txs, senders, bySender, senders[s]);
      var group := SortBy(bySender[senders[s]], NonceKey());
      assert senders[..s + 1] == senders[..s] + [senders[s]];
      MapAppend(senders[..s], senders[s], GroupFrom(txs));
      groups := groups + [group];
      s := s + 1;
    }
    assert senders[..s] == senders;
    groups := SortBy(groups, LeadKey(e));
  }

  /** The packing loops. */
  method PackLoop(e: Env, groups: seq<seq<Tx>>, base: int, budget: Option<nat>) returns (p: Pack)
    ensures p == PackGroups(e, groups, Pack([], base, budget, false))
  {
    p := Pack([], base, budget, false);
    var g := 0;
    while g < |groups| && !p.hitDeadline
      invariant 0 <= g <= |groups|
      invariant PackGroups(e, groups, Pack([], base, budget, false)) == PackGroups(e, groups[g..], p)
    {
      var group := groups[g];
      ghost var goal := PackGroup(e, group, p);
      var k := 0;
      while k < |group|
        invariant 0 <= k <= |group| && !p.hitDeadline
        invariant goal == PackGroup(e, group[k..], p)
      {
        if p.budget == Some(0) {
          p := p.(hitDeadline := true);
          break;
        }
        var size := TxSizeInBlock(e, group[k], |p.txs|);
        p := p.(budget := if p.budget.Some? then Some(p.budget.value - 1) else None);
        if p.running + size > BLOCK_SIZE_LIMIT {
          break;
        }
        p := p.(txs := p.txs + [group[k]], running := p.running + size);
        k := k + 1;
      }
      assert p == goal;
      g := g + 1;
    }
  }

  /** assemble. */
  method Assemble(e: Env, tip: Block, txs: seq<Tx>, builder: Address, iterations: int,
                  budget: Option<nat>, now: Instant) returns (b: Block)
    ensures b == Assembled(e, tip, txs, builder, iterations, budget, now)
  {
    var skeleton := Skeleton(e, tip, builder, iterations, now);
    var base := BlockSize(e, skeleton);
    var groups := SortGroups(e, txs);
    var p := PackLoop(e, groups, base, budget);
    b := skeleton.(txs := p.txs, txBytes := Some(p.running - base), hash := "");
  }

  // --------------------------------------------------------------------------------- its sizes

  /** The running size is the serialized size of what has been packed, and stays within the limit. */
  ghost predicate SizeTracked(e: Env, base: int, p: Pack) {
    p.running == base + TxListSize(e, p.txs) && p.running <= BLOCK_SIZE_LIMIT
  }

  lemma {:induction false} PackGroupSize(e: Env, g: seq<Tx>, base: int, p: Pack)
    requires SizeTracked(e, base, p)
    ensures SizeTracked(e, base, PackGroup(e, g, p))
    decreases |g|
  {
    if g != [] && p.budget != Some(0) {
      var size := TxSizeInBlock(e, g[0], |p.txs|);
      var budget := if p.budget.Some? then Some(p.budget.value - 1) else None;
      if p.running + size <= BLOCK_SIZE_LIMIT {
        assert (p.txs + [g[0]])[..|p.txs|] == p.txs;
        PackGroupSize(e, g[1..], base, Pack(p.txs + [g[0]], p.running + size, budget, p.hitDeadline));
      }
    }
  }

  lemma {:induction false} PackGroupsSize(e: Env, groups: seq<seq<Tx>>, base: int, p: Pack)
    requires SizeTracked(e, base, p)
    ensures SizeTracked(e, base, PackGroups(e, groups, p))
    decreases |groups|
  {
    if groups != [] && !p.hitDeadline {
      PackGroupSize(e, groups[0], base, p);
      PackGroupsSize(e, groups[1..], base, PackGroup(e, groups[0], p));
    }
  }

  /** tx_bytes is exactly what the transactions add to the serialized skeleton, and skeleton and
      transactions together stay within the limit. */
  lemma {:induction false} AssembledSize(e: Env, tip: Block, txs: seq<Tx>, builder: Address, iterations: int,
                                         budget: Option<nat>, now: Instant)
    requires BlockSize(e, Skeleton(e, tip, builder, iterations, now)) <= BLOCK_SIZE_LIMIT
    ensures var s := Skeleton(e, tip, builder, iterations, now);
      var b := Assembled(e, tip, txs, builder, iterations, budget, now);
      && b.txBytes == Some(TxListSize(e, b.txs))
      && BlockSize(e, s.(txs := b.txs)) == BlockSize(e, s) + TxListSize(e, b.txs)
      && BlockSize(e, s.(txs := b.txs)) <= BLOCK_SIZE_LIMIT
  {
    var s := Skeleton(e, tip, builder, iterations, now);
    var base := BlockSize(e, s);
    var p := PackGroups(e, Groups(e, txs), Pack([], base, budget, false));
    PackGroupsSize(e, Groups(e, txs), base, Pack([], base, budget, false));
    assert SizeTracked(e, base, p);
    assert s.txs == [] && s.(txs := p.txs).(txs := []) == s;
    assert BlockSize(e, s.(txs := p.txs)) == base + TxListSize(e, p.txs);
  }

  // ----------------------------------------------------------------- which transactions it takes

  /** How many transactions of g the inner loop takes. */
  function Taken(e: Env, g: seq<Tx>, p: Pack): (n: nat)
    ensures n <= |g|
    decreases |g|
  {
    if g == [] || p.budget == Some(0) then 0
    else
      var size := TxSizeInBlock(e, g[0], |p.txs|);
      var budget := if p.budget.Some? then Some(p.budget.value - 1) else None;
      if p.running + size > BLOCK_SIZE_LIMIT then 0
      else 1 + Taken(e, g[1..], Pack(p.txs + [g[0]], p.running + size, budget, p.hitDeadline))
  }

  /** The inner loop takes a prefix of the group, and leaves a rest only if the next transaction
      would not fit or the deadline passed. */
  lemma {:induction false} PackGroupTakesPrefix(e: Env, g: seq<Tx>, p: Pack)
    ensures var r := PackGroup(e, g, p);
      var n := Taken(e, g, p);
      && r.txs == p.txs + g[..n]
      && (n < |g| ==> r.running + TxSizeInBlock(e, g[n], |r.txs|) > BLOCK_SIZE_LIMIT || r.hitDeadline)
    decreases |g|
  {
    if g != [] && p.budget != Some(0) {
      var size := TxSizeInBlock(e, g[0], |p.txs|);
      var budget := if p.budget.Some? then Some(p.budget.value - 1) else None;
      if p.running + size <= BLOCK_SIZE_LIMIT {
        var next := Pack(p.txs + [g[0]], p.running + size, budget, p.hitDeadline);
        PackGroupTakesPrefix(e, g[1..], next);
        var n := Taken(e, g[1..], next);
        assert g[..n + 1] == [g[0]] + g[1..][..n];
        assert p.txs + g[..n + 1] == p.txs + [g[0]] + g[1..][..n];
      }
    }
  }

  /** Each group belongs to one sender, and no two groups to the same. */
  ghost predicate SplitBySender(groups: seq<seq<Tx>>, owners: seq<Address>) {
    && |groups| == |owners| && Distinct(owners)
    && forall i :: 0 <= i < |groups| ==> forall t :: t in groups[i] ==> t.from == owners[i]
  }

  /** From every sender the packer adds a prefix of that sender's group and nothing else. */
  lemma {:induction false} PackGroupsTakePrefixes(e: Env, groups: seq<seq<Tx>>, owners: seq<Address>, p: Pack,
                                                  a: Address)
    requires SplitBySender(groups, owners)
    ensures var r := PackGroups(e, groups, p).txs;
      && (a !in owners ==> Filter(r, By(a)) == Filter(p.txs, By(a)))
      && forall i :: 0 <= i < |owners| && owners[i] == a ==>
           exists n :: 0 <= n <= |groups[i]| && Filter(r, By(a)) == Filter(p.txs, By(a)) + groups[i][..n]
    decreases |groups|
  {
    var r := PackGroups(e, groups, p).txs;
    if groups == [] || p.hitDeadline {
      forall i | 0 <= i < |owners| && owners[i] == a
        ensures exists n :: 0 <= n <= |groups[i]| && Filter(r, By(a)) == Filter(p.txs, By(a)) + groups[i][..n]
      {
        assert Filter(r, By(a)) == Filter(p.txs, By(a)) + groups[i][..0];
      }
    } else {
      var q := PackGroup(e, groups[0], p);
      var n := Taken(e, groups[0], p);
      PackGroupTakesPrefix(e, groups[0], p);
      FilterConcat(p.txs, groups[0][..n], By(a));
      SplitTail(groups, owners);
      PackGroupsTakePrefixes(e, groups[1..], owners[1..], q, a);
      if owners[0] == a {
        FilterAll(groups[0][..n], By(a));
        assert Filter(r, By(a)) == Filter(p.txs, By(a)) + groups[0][..n];
      } else {
        FilterNone(groups[0][..n], By(a));
        assert Filter(q.txs, By(a)) == Filter(p.txs, By(a));
        forall i | 0 <= i < |owners| && owners[i] == a
          ensures exists m :: 0 <= m <= |groups[i]| && Filter(r, By(a)) == Filter(p.txs, By(a)) + groups[i][..m]
        {
          assert owners[1..][i - 1] == a && groups[1..][i - 1] == groups[i];
        }
      }
    }
  }

  lemma {:induction false} SendersMembers(txs: seq<Tx>, a: Address)
    ensures a in Senders(txs) <==> exists t :: t in txs && t.from == a
  {
    if txs != [] {
      var front, t := txs[..|txs| - 1], txs[|txs| - 1];
      SendersMembers(front, a);
      assert txs == front + [t];
      assert t in txs && forall u :: u in txs <==> u in front || u == t;
    }
  }

  lemma {:induction false} SendersDistinct(txs: seq<Tx>)
    ensures Distinct(Senders(txs))
  {
    if txs != [] {
      SendersDistinct(txs[..|txs| - 1]);
    }
  }

  // ------------------------------------------------------------------------ sorted group order

  function SenderKey(e: Env, txs: seq<Tx>): Address -> real {
    (a: Address) => LeadKey(e)(Group(txs, a))
  }

  lemma GroupMembers(txs: seq<Tx>, a: Address)
    ensures forall t :: t in Group(txs, a) <==> t in txs && t.from == a
  {
    SortKeepsMembers(Filter(txs, By(a)), NonceKey());
  }

  lemma {:induction false} OwnersAre(e: Env, txs: seq<Tx>, owners: seq<Address>)
    requires owners == SortBy(Senders(txs), SenderKey(e, txs))
    ensures Distinct(owners) && forall a :: a in owners <==> exists t :: t in txs && t.from == a
  {
    SendersDistinct(txs);
    SortKeepsDistinct(Senders(txs), SenderKey(e, txs));
    SortKeepsMembers(Senders(txs), SenderKey(e, txs));
    hide Senders, SortBy;
    forall a ensures a in owners <==> exists t :: t in txs && t.from == a {
      SendersMembers(txs, a);
    }
  }

  /** A group is in nonce order. */
  lemma GroupSorted(txs: seq<Tx>, a: Address, i: nat, j: nat)
    requires i <= j < |Group(txs, a)|
    ensures Group(txs, a)[i].nonce <= Group(txs, a)[j].nonce
  {
    SortByIsSort(Filter(txs, By(a)), NonceKey());
    hide SortBy, Filter;
    assert i < j ==> NonceKey()(Group(txs, a)[i]) <= NonceKey()(Group(txs, a)[j]);
  }

  /** The groups in packing order, with their owners. */
  lemma GroupsAreSplit(e: Env, txs: seq<Tx>) returns (owners: seq<Address>)
    ensures SplitBySender(Groups(e, txs), owners)
    ensures forall a :: a in owners <==> exists t :: t in txs && t.from == a
    ensures Groups(e, txs) == MapSeq(owners, GroupFrom(txs))
  {
    owners := SortBy(Senders(txs), SenderKey(e, txs));
    SortMap(Senders(txs), GroupFrom(txs), LeadKey(e), SenderKey(e, txs));
    OwnersAre(e, txs, owners);
    hide SortBy, Filter, Senders, Group;
    forall i | 0 <= i < |owners|
      ensures forall t: Tx :: t in MapSeq(owners, GroupFrom(txs))[i] ==> t.from == owners[i] {
      MapAt(owners, GroupFrom(txs), i);
      GroupMembers(txs, owners[i]);
    }
  }

  /** packed holds, of every sender, a prefix of its nonce-ordered pending transactions. */
  ghost predicate PrefixOfEach(txs: seq<Tx>, packed: seq<Tx>) {
    forall a :: Filter(packed, By(a)) <= Group(txs, a)
  }

  lemma {:induction false} PackedPrefix(e: Env, txs: seq<Tx>, start: Pack, a: Address)
    requires start.txs == []
    ensures Filter(PackGroups(e, Groups(e, txs), start).txs, By(a)) <= Group(txs, a)
  {
    var owners := GroupsAreSplit(e, txs);
    hide PackGroups, Groups, SplitBySender, Filter, SortBy;
    PackGroupsTakePrefixes(e, Groups(e, txs), owners, start, a);
    var packed := PackGroups(e, Groups(e, txs), start).txs;
    if a in owners {
      var i :| 0 <= i < |owners| && owners[i] == a;
      var n :| 0 <= n <= |Groups(e, txs)[i]|
        && Filter(packed, By(a)) == Filter(start.txs, By(a)) + Groups(e, txs)[i][..n];
      MapAt(owners, GroupFrom(txs), i);
      assert [] + Group(txs, a)[..n] == Group(txs, a)[..n];
    }
  }

  /** The block carries, of every sender, a prefix of the nonce-ordered pending transactions. */
  lemma AssembledPrefixes(e: Env, tip: Block, txs: seq<Tx>, builder: Address, iterations: int, budget: Option<nat>,
                          now: Instant)
    ensures PrefixOfEach(txs, Assembled(e, tip, txs, builder, iterations, budget, now).txs)
  {
    var start := Pack([], BlockSize(e, Skeleton(e, tip, builder, iterations, now)), budget, false);
    var packed := PackGroups(e, Groups(e, txs), start).txs;
    forall a ensures Filter(packed, By(a)) <= Group(txs, a) {
      PackedPrefix(e, txs, start, a);
    }
  }

  lemma PrefixesRun(e: Env, l: Ledger, txs: seq<Tx>, packed: seq<Tx>)
    requires forall a :: RunTxs(e, l, Group(txs, a)).Ran?
    requires PrefixOfEach(txs, packed)
    ensures forall a :: RunTxs(e, l, Filter(packed, By(a))).Ran?
  {
    forall a ensures RunTxs(e, l, Filter(packed, By(a))).Ran? {
      var p, g := Filter(packed, By(a)), Group(txs, a);
      assert g == p + g[|p|..];
      assert RunTxs(e, l, g).Ran?;
      RunConcat(e, l, p, g[|p|..]);
    }
  }

  /** If every sender's pending transactions run alone on a ledger, the assembled block's run there
      together, whatever the fee order, the sizes and the deadline. */
  lemma {:induction false} AssembledRuns(e: Env, l: Ledger, tip: Block, txs: seq<Tx>, builder: Address, iterations: int,
                                         budget: Option<nat>, now: Instant)
    requires forall a :: RunTxs(e, l, Group(txs, a)).Ran?
    ensures RunTxs(e, l, Assembled(e, tip, txs, builder, iterations, budget, now).txs).Ran?
  {
    var packed := Assembled(e, tip, txs, builder, iterations, budget, now).txs;
    AssembledPrefixes(e, tip, txs, builder, iterations, budget, now);
    PrefixesRun(e, l, txs, packed);
    InterleavingRuns(e, l, packed);
  }

  /** Lead fee rates never rise from one group to the next. */
  lemma GroupsByFeeRate(e: Env, txs: seq<Tx>, i: nat, j: nat)
    requires i < j < |Groups(e, txs)|
    ensures Groups(e, txs)[i] != [] && Groups(e, txs)[j] != []
    ensures FeeRate(e, Groups(e, txs)[i][0]) >= FeeRate(e, Groups(e, txs)[j][0])
  {
    var owners := GroupsAreSplit(e, txs);
    var groups := Groups(e, txs);
    SortByIsSort(MapSeq(Senders(txs), GroupFrom(txs)), LeadKey(e));
    assert LeadKey(e)(groups[i]) <= LeadKey(e)(groups[j]);
    forall k | 0 <= k < |groups| ensures groups[k] != [] {
      assert owners[k] in owners;
      var t :| t in txs && t.from == owners[k];
      MapAt(owners, GroupFrom(txs), k);
      GroupMembers(txs, owners[k]);
      assert t in groups[k];
    }
  }

  // ------------------------------------------------------------- nothing that fits is left behind

  function Flat(parts: seq<seq<Tx>>): seq<Tx> {
    if parts == [] then [] else parts[0] + Flat(parts[1..])
  }

  /** A group is left only where its next transaction does not fit any more. */
  ghost predicate Full(e: Env, g: seq<Tx>, part: seq<Tx>, running: int, count: nat) {
    part <= g && (|part| == |g| || running + TxSizeInBlock(e, g[|part|], count) > BLOCK_SIZE_LIMIT)
  }

  lemma {:induction false} PackGroupGrows(e: Env, g: seq<Tx>, p: Pack)
    ensures var r := PackGroup(e, g, p);
      && r.running >= p.running && |r.txs| >= |p.txs|
      && r.running - p.running == TxListSize(e, r.txs) - TxListSize(e, p.txs)
      && (p.budget.None? ==> r.budget.None? && r.hitDeadline == p.hitDeadline)
    decreases |g|
  {
    if g != [] && p.budget != Some(0) {
      var size := TxSizeInBlock(e, g[0], |p.txs|);
      var budget := if p.budget.Some? then Some(p.budget.value - 1) else None;
      if p.running + size <= BLOCK_SIZE_LIMIT {
        assert (p.txs + [g[0]])[..|p.txs|] == p.txs;
        PackGroupGrows(e, g[1..], Pack(p.txs + [g[0]], p.running + size, budget, p.hitDeadline));
      }
    }
  }

  /** The packed list is a prefix of each group, one after the other; without a deadline each is all that fits. */
  lemma {:induction false} PackGroupsParts(e: Env, groups: seq<seq<Tx>>, p: Pack) returns (parts: seq<seq<Tx>>)
    ensures var r := PackGroups(e, groups, p);
      && |parts| == |groups| && r.txs == p.txs + Flat(parts)
      && r.running >= p.running && r.running - p.running == TxListSize(e, r.txs) - TxListSize(e, p.txs)
      && (forall i :: 0 <= i < |groups| ==> parts[i] <= groups[i])
      && (p.budget.None? && !p.hitDeadline ==>
            forall i :: 0 <= i < |groups| ==> Full(e, groups[i], parts[i], r.running, |r.txs|))
    decreases |groups|
  {
    if groups == [] {
      parts := [];
    } else if p.hitDeadline {
      parts := Nothing(groups);
    } else {
      var q := PackGroup(e, groups[0], p);
      var first := groups[0][..Taken(e, groups[0], p)];
      PackGroupTakesPrefix(e, groups[0], p);
      PackGroupGrows(e, groups[0], p);
      hide PackGroup, Taken, TxListSize, Full, TxSizeInBlock;
      var rest := PackGroupsParts(e, groups[1..], q);
      parts := [first] + rest;
      assert parts[1..] == rest;
      assert p.txs + first + Flat(rest) == p.txs + Flat(parts);
      var r := PackGroups(e, groups, p);
      assert r == PackGroups(e, groups[1..], q);
      if p.budget.None? {
        FullStays(e, groups[0], p, r.running, |r.txs|);
        forall i | 0 <= i < |groups| ensures Full(e, groups[i], parts[i], r.running, |r.txs|) {
          assert i > 0 ==> Full(e, groups[1..][i - 1], rest[i - 1], r.running, |r.txs|);
        }
      }
    }
  }

  lemma {:induction false} FullStays(e: Env, g: seq<Tx>, p: Pack, running: int, count: nat)
    requires p.budget.None? && !p.hitDeadline
    requires running >= PackGroup(e, g, p).running && count >= |PackGroup(e, g, p).txs|
    ensures Full(e, g, g[..Taken(e, g, p)], running, count)
  {
    PackGroupTakesPrefix(e, g, p);
    PackGroupGrows(e, g, p);
    hide PackGroup, Taken;
  }

  lemma {:induction false} Nothing(groups: seq<seq<Tx>>) returns (parts: seq<seq<Tx>>)
    ensures |parts| == |groups| && Flat(parts) == [] && forall i :: 0 <= i < |groups| ==> parts[i] == []
  {
    if groups == [] {
      parts := [];
    } else {
      var rest := Nothing(groups[1..]);
      parts := [[]] + rest;
      assert parts[1..] == rest;
    }
  }

  /** Each part is its owner's share of the whole. */
  lemma {:induction false} FlatFilter(parts: seq<seq<Tx>>, owners: seq<Address>, i: nat)
    requires SplitBySender(parts, owners) && i < |parts|
    ensures Filter(Flat(parts), By(owners[i])) == parts[i]
  {
    hide Filter;
    var a := owners[i];
    FilterConcat(parts[0], Flat(parts[1..]), By(a));
    SplitTail(parts, owners);
    assert forall t :: t in parts[0] ==> t.from == owners[0];
    if i == 0 {
      FilterAll(parts[0], By(a));
      FlatOthers(parts[1..], owners[1..], a);
      hide SplitBySender;
    } else {
      assert owners[1..][i - 1] == a && owners[0] != a;
      FilterNone(parts[0], By(a));
      FlatFilter(parts[1..], owners[1..], i - 1);
      hide SplitBySender;
    }
  }

  lemma {:induction false} FlatOthers(parts: seq<seq<Tx>>, owners: seq<Address>, a: Address)
    requires SplitBySender(parts, owners) && a !in owners
    ensures Filter(Flat(parts), By(a)) == []
  {
    if parts != [] {
      FilterConcat(parts[0], Flat(parts[1..]), By(a));
      FilterNone(parts[0], By(a));
      SplitTail(parts, owners);
      FlatOthers(parts[1..], owners[1..], a);
    }
  }

  lemma SplitTail(parts: seq<seq<Tx>>, owners: seq<Address>)
    requires SplitBySender(parts, owners) && parts != []
    ensures SplitBySender(parts[1..], owners[1..]) && owners[0] !in owners[1..]
    ensures forall a :: a in owners[1..] ==> a in owners
  {
    forall i, j | 0 <= i < j < |owners[1..]| ensures owners[1..][i] != owners[1..][j] {
      assert owners[1..][i] == owners[i + 1] && owners[1..][j] == owners[j + 1];
    }
    forall k | 0 <= k < |owners[1..]| ensures owners[1..][k] != owners[0] {
      assert owners[1..][k] == owners[k + 1];
    }
  }

  /** The parts of what assemble packs of the pool. */
  lemma AssembledParts(e: Env, tip: Block, txs: seq<Tx>, builder: Address, iterations: int, budget: Option<nat>,
                       now: Instant) returns (owners: seq<Address>, parts: seq<seq<Tx>>)
    ensures |parts| == |owners| && Distinct(owners) && forall a :: a in owners <==> exists t :: t in txs && t.from == a
    ensures Groups(e, txs) == MapSeq(owners, GroupFrom(txs)) && SplitBySender(parts, owners)
    ensures
      var s := Skeleton(e, tip, builder, iterations, now);
      var b := Assembled(e, tip, txs, builder, iterations, budget, now);
      && b.txs == Flat(parts)
      && forall i :: 0 <= i < |parts| ==>
           && parts[i] <= Group(txs, owners[i])
           && (budget.None? ==> Full(e, Group(txs, owners[i]), parts[i], BlockSize(e, s.(txs := b.txs)), |b.txs|))
  {
    var s := Skeleton(e, tip, builder, iterations, now);
    var start := Pack([], BlockSize(e, s), budget, false);
    owners := GroupsAreSplit(e, txs);
    parts := PackGroupsParts(e, Groups(e, txs), start);
    SkeletonSize(e, s, PackGroups(e, Groups(e, txs), start).txs);
    assert [] + Flat(parts) == Flat(parts);
    hide PackGroups, Groups, Skeleton, Filter, SortBy, Full, BlockSize;
    forall i | 0 <= i < |parts| ensures Groups(e, txs)[i] == Group(txs, owners[i]) {
      MapAt(owners, GroupFrom(txs), i);
    }
    hide Group;
    forall i, t | 0 <= i < |parts| && t in parts[i] ensures t.from == owners[i] {
      assert t in Groups(e, txs)[i];
    }
  }

  lemma {:induction false} SkeletonSize(e: Env, s: Block, packed: seq<Tx>)
    requires s.txs == []
    ensures BlockSize(e, s.(txs := packed)) == BlockSize(e, s) + TxListSize(e, packed)
  {
    assert s.(txs := packed).(txs := []) == s && TxListSize(e, []) == 0;
  }

  /** Without a deadline, of every sender the whole pending list is packed, or else its next transaction does not
      fit into the block as it is at the end. */
  lemma AssembledIsFull(e: Env, tip: Block, txs: seq<Tx>, builder: Address, iterations: int, now: Instant, a: Address)
    ensures
      var b := Assembled(e, tip, txs, builder, iterations, None, now);
      var block := Skeleton(e, tip, builder, iterations, now).(txs := b.txs);
      var g, n := Group(txs, a), |Filter(b.txs, By(a))|;
      && n <= |g| && g[..n] == Filter(b.txs, By(a))
      && (n < |g| ==> BlockSize(e, block) + TxSizeInBlock(e, g[n], |b.txs|) > BLOCK_SIZE_LIMIT)
  {
    var owners, parts := AssembledParts(e, tip, txs, builder, iterations, None, now);
    hide Assembled, Groups, Skeleton, SplitBySender, BlockSize, TxSizeInBlock;
    if a in owners {
      var i :| 0 <= i < |owners| && owners[i] == a;
      FlatFilter(parts, owners, i);
    } else {
      FlatOthers(parts, owners, a);
      GroupOfNobody(txs, a);
      hide Filter, Group;
    }
  }

  lemma GroupOfNobody(txs: seq<Tx>, a: Address)
    requires forall t :: t in txs ==> t.from != a
    ensures Group(txs, a) == []
  {
    FilterNone(txs, By(a));
    hide Filter;
  }

  // ------------------------------------------------------------- the order of senders in the block

  /** Two positions of the joined parts lie in parts of the same order. */
  lemma {:induction false} FlatOrder(parts: seq<seq<Tx>>, i: nat, j: nat) returns (u: nat, v: nat)
    requires i <= j < |Flat(parts)|
    ensures u <= v < |parts| && Flat(parts)[i] in parts[u] && Flat(parts)[j] in parts[v]
  {
    var k := |parts[0]|;
    if j < k {
      u, v := 0, 0;
    } else if i < k {
      var x, y := FlatOrder(parts[1..], j - k, j - k);
      u, v := 0, y + 1;
    } else {
      var x, y := FlatOrder(parts[1..], i - k, j - k);
      u, v := x + 1, y + 1;
    }
  }

  /** In the block a sender whose first pending transaction pays a better fee rate comes first, and the transactions
      of one sender stand together. */
  lemma PackedByFeeRate(e: Env, tip: Block, txs: seq<Tx>, builder: Address, iterations: int, budget: Option<nat>,
                        now: Instant, i: nat, j: nat)
    requires i <= j < |Assembled(e, tip, txs, builder, iterations, budget, now).txs|
    ensures
      var packed := Assembled(e, tip, txs, builder, iterations, budget, now).txs;
      var first, second := Group(txs, packed[i].from), Group(txs, packed[j].from);
      && first != [] && second != [] && FeeRate(e, first[0]) >= FeeRate(e, second[0])
      && forall k :: i <= k <= j && packed[i].from == packed[j].from ==> packed[k].from == packed[i].from
  {
    var packed := Assembled(e, tip, txs, builder, iterations, budget, now).txs;
    var owners, parts := AssembledParts(e, tip, txs, builder, iterations, budget, now);
    hide Assembled, Full, Skeleton, BlockSize;
    var u, v := FlatOrder(parts, i, j);
    hide Flat;
    LeadersInOrder(e, txs, owners, u, v);
    forall k | i <= k <= j && packed[i].from == packed[j].from ensures packed[k].from == packed[i].from {
      Together(parts, owners, packed, i, k, j);
    }
  }

  lemma {:induction false} Together(parts: seq<seq<Tx>>, owners: seq<Address>, packed: seq<Tx>, i: nat, k: nat, j: nat)
    requires SplitBySender(parts, owners) && packed == Flat(parts) && i <= k <= j < |packed|
    requires packed[i].from == packed[j].from
    ensures packed[k].from == packed[i].from
  {
    var u, v := FlatOrder(parts, i, k);
    var w, x := FlatOrder(parts, k, j);
    hide Flat;
    assert packed[i].from == owners[u] && packed[k].from == owners[v] == owners[w] && packed[j].from == owners[x];
  }

  lemma {:induction false} LeadersInOrder(e: Env, txs: seq<Tx>, owners: seq<Address>, u: nat, v: nat)
    requires Groups(e, txs) == MapSeq(owners, GroupFrom(txs)) && u <= v < |owners|
    requires forall a :: a in owners <==> exists t :: t in txs && t.from == a
    ensures
      var first, second := Group(txs, owners[u]), Group(txs, owners[v]);
      first != [] && second != [] && FeeRate(e, first[0]) >= FeeRate(e, second[0])
  {
    hide Groups, FeeRate, Group;
    MapAt(owners, GroupFrom(txs), u);
    MapAt(owners, GroupFrom(txs), v);
    if u < v {
      GroupsByFeeRate(e, txs, u, v);
    } else {
      assert owners[u] in owners;
      var t :| t in txs && t.from == owners[u];
      GroupMembers(txs, owners[u]);
      assert t in Group(txs, owners[u]);
    }
  }

  // ------------------------------------------------------------- a pool that fits is packed whole

  function JsonBytes(e: Env, txs: seq<Tx>): nat {
    if txs == [] then 0 else e.jsonSize(txs[0]) + JsonBytes(e, txs[1..])
  }

  lemma {:induction false} JsonBytesConcat(e: Env, a: seq<Tx>, b: seq<Tx>)
    ensures JsonBytes(e, a + b) == JsonBytes(e, a) + JsonBytes(e, b)
  {
    if a == [] {
      assert a + b == b;
    } else {
      assert (a + b)[1..] == a[1..] + b;
      JsonBytesConcat(e, a[1..], b);
    }
  }

  lemma {:induction false} ListSizeIs(e: Env, txs: seq<Tx>)
    ensures TxListSize(e, txs) == JsonBytes(e, txs) + if txs == [] then 0 else |txs| - 1
  {
    if txs != [] {
      var front, last := txs[..|txs| - 1], txs[|txs| - 1];
      ListSizeIs(e, front);
      JsonBytesConcat(e, front, [last]);
      assert front + [last] == txs && [last][1..] == [];
    }
  }

  lemma RemoveOne(e: Env, b: seq<Tx>, t: Tx) returns (rest: seq<Tx>)
    requires t in b
    ensures |rest| == |b| - 1 && multiset(b) == multiset(rest) + multiset{t}
    ensures JsonBytes(e, b) == e.jsonSize(t) + JsonBytes(e, rest)
  {
    var k :| 0 <= k < |b| && b[k] == t;
    var front, back := b[..k], b[k + 1..];
    rest := front + back;
    assert b == front + ([t] + back);
    JsonBytesConcat(e, front, [t] + back);
    JsonBytesConcat(e, front, back);
    assert ([t] + back)[1..] == back;
  }

  /** Fewer transactions take no more bytes. */
  lemma {:induction false} JsonBytesWithin(e: Env, a: seq<Tx>, b: seq<Tx>)
    requires multiset(a) <= multiset(b)
    ensures JsonBytes(e, a) <= JsonBytes(e, b) && |a| <= |b|
    decreases |a|
  {
    if a != [] {
      assert a == [a[0]] + a[1..];
      assert multiset(a) == multiset{a[0]} + multiset(a[1..]);
      assert a[0] in multiset(a) && a[0] in b;
      var rest := RemoveOne(e, b, a[0]);
      forall t ensures multiset(a[1..])[t] <= multiset(rest)[t] {
        assert multiset(a)[t] <= multiset(b)[t];
      }
      JsonBytesWithin(e, a[1..], rest);
    }
  }

  /** The copies of t in a list are those among its sender's. */
  lemma {:induction false} CountInGroup(s: seq<Tx>, t: Tx)
    ensures multiset(s)[t] == multiset(Filter(s, By(t.from)))[t]
  {
    if s != [] {
      FilterFirst(s, By(t.from));
      assert s == [s[0]] + s[1..];
      hide Filter;
      CountInGroup(s[1..], t);
    }
  }

  lemma GroupCount(txs: seq<Tx>, t: Tx)
    ensures multiset(Group(txs, t.from))[t] == multiset(txs)[t]
  {
    SortByIsSort(Filter(txs, By(t.from)), NonceKey());
    hide SortBy, Filter;
    CountInGroup(txs, t);
  }

  lemma PrefixWithin(p: seq<Tx>, g: seq<Tx>, t: Tx)
    requires p <= g
    ensures multiset(p)[t] <= multiset(g)[t]
  {
    assert g == p + g[|p|..];
  }

  lemma PackedCount(txs: seq<Tx>, packed: seq<Tx>, t: Tx)
    requires PrefixOfEach(txs, packed)
    ensures multiset(packed)[t] <= multiset(txs)[t]
  {
    assert Filter(packed, By(t.from)) <= Group(txs, t.from);
    CountInGroup(packed, t);
    GroupCount(txs, t);
    hide Filter, Group, PrefixOfEach;
    PrefixWithin(Filter(packed, By(t.from)), Group(txs, t.from), t);
  }

  lemma {:induction false} NextCount(txs: seq<Tx>, packed: seq<Tx>, next: Tx)
    requires PrefixOfEach(txs, packed) && |Filter(packed, By(next.from))| < |Group(txs, next.from)|
    requires Group(txs, next.from)[|Filter(packed, By(next.from))|] == next
    ensures multiset(packed)[next] < multiset(txs)[next]
  {
    assert Filter(packed, By(next.from)) <= Group(txs, next.from);
    hide Filter, Group, PrefixOfEach;
    CountInGroup(packed, next);
    GroupCount(txs, next);
    NextInRest(Filter(packed, By(next.from)), Group(txs, next.from));
  }

  lemma NextInRest(own: seq<Tx>, g: seq<Tx>)
    requires own <= g && |own| < |g|
    ensures multiset(own)[g[|own|]] < multiset(g)[g[|own|]]
  {
    var next := g[|own|];
    assert g[..|own| + 1] == own + [next];
    PrefixWithin(g[..|own| + 1], g, next);
  }

  /** What each sender could still add is within the pool. */
  lemma {:induction false} OneMoreWithin(txs: seq<Tx>, packed: seq<Tx>, a: Address)
    requires PrefixOfEach(txs, packed) && |Filter(packed, By(a))| < |Group(txs, a)|
    ensures multiset(packed + [Group(txs, a)[|Filter(packed, By(a))|]]) <= multiset(txs)
  {
    var next := Group(txs, a)[|Filter(packed, By(a))|];
    GroupMembers(txs, a);
    assert next in Group(txs, a);
    hide Filter, Group, PrefixOfEach;
    NextCount(txs, packed, next);
    forall t ensures multiset(packed + [next])[t] <= multiset(txs)[t] {
      PackedCount(txs, packed, t);
    }
  }

  /** If the block with the whole pool is within the limit, assemble packs the whole pool. */
  lemma AssembledIsWhole(e: Env, tip: Block, txs: seq<Tx>, builder: Address, iterations: int, now: Instant)
    requires BlockSize(e, Skeleton(e, tip, builder, iterations, now).(txs := txs)) <= BLOCK_SIZE_LIMIT
    ensures multiset(Assembled(e, tip, txs, builder, iterations, None, now).txs) == multiset(txs)
  {
    var s := Skeleton(e, tip, builder, iterations, now);
    var packed := Assembled(e, tip, txs, builder, iterations, None, now).txs;
    assert s.txs == [];
    AssembledPrefixes(e, tip, txs, builder, iterations, None, now);
    SkeletonSize(e, s, txs);
    SkeletonSize(e, s, packed);
    hide Skeleton, Assembled, BlockSize, PrefixOfEach;
    forall t ensures multiset(packed)[t] == multiset(txs)[t] {
      AssembledIsFull(e, tip, txs, builder, iterations, now, t.from);
      WholeCount(e, txs, packed, t);
    }
  }

  lemma {:induction false} WholeCount(e: Env, txs: seq<Tx>, packed: seq<Tx>, t: Tx)
    requires PrefixOfEach(txs, packed)
    requires
      var g, n := Group(txs, t.from), |Filter(packed, By(t.from))|;
      n < |g| ==> TxListSize(e, packed) + TxSizeInBlock(e, g[n], |packed|) > TxListSize(e, txs)
    ensures multiset(packed)[t] == multiset(txs)[t]
  {
    assert Filter(packed, By(t.from)) <= Group(txs, t.from);
    hide PrefixOfEach, Filter, Group, TxListSize;
    if |Filter(packed, By(t.from))| < |Group(txs, t.from)| {
      NextFits(e, txs, packed, t.from);
    }
    assert Filter(packed, By(t.from)) == Group(txs, t.from);
    CountInGroup(packed, t);
    GroupCount(txs, t);
  }

  lemma {:induction false} NextFits(e: Env, txs: seq<Tx>, packed: seq<Tx>, a: Address)
    requires PrefixOfEach(txs, packed) && |Filter(packed, By(a))| < |Group(txs, a)|
    ensures
      var next := Group(txs, a)[|Filter(packed, By(a))|];
      TxListSize(e, packed) + TxSizeInBlock(e, next, |packed|) <= TxListSize(e, txs)
  {
    var next := Group(txs, a)[|Filter(packed, By(a))|];
    OneMoreWithin(txs, packed, a);
    hide Filter, Group, PrefixOfEach;
    JsonBytesWithin(e, packed + [next], txs);
    ListSizeIs(e, txs);
    ListSizeIs(e, packed + [next]);
    assert (packed + [next])[..|packed|] == packed;
  }

  // ------------------------------------------------------------------------- what a deadline costs

  lemma {:induction false} PackGroupDeadline(e: Env, g: seq<Tx>, p: Pack, k: nat)
    requires !p.hitDeadline
    ensures
      var cut, whole := PackGroup(e, g, p.(budget := Some(k))), PackGroup(e, g, p.(budget := None));
      && cut.txs <= whole.txs && |cut.txs| <= |p.txs| + k
      && whole.budget.None? && !whole.hitDeadline
      && (!cut.hitDeadline ==>
            && cut.budget.Some? && cut == whole.(budget := cut.budget)
            && cut.budget.value >= k - |g| && |cut.txs| + cut.budget.value <= |p.txs| + k)
      && (cut.hitDeadline ==> k < |g|)
    decreases |g|
  {
    if g != [] && k == 0 {
      PackGroupTakesPrefix(e, g, p.(budget := None));
      PackGroupGrows(e, g, p.(budget := None));
    } else if g != [] {
      var size := TxSizeInBlock(e, g[0], |p.txs|);
      if p.running + size <= BLOCK_SIZE_LIMIT {
        PackGroupDeadline(e, g[1..], Pack(p.txs + [g[0]], p.running + size, None, false), k - 1);
      }
    }
  }

  lemma {:induction false} PackGroupsDeadline(e: Env, groups: seq<seq<Tx>>, p: Pack, k: nat)
    requires !p.hitDeadline
    ensures
      var cut, whole := PackGroups(e, groups, p.(budget := Some(k))), PackGroups(e, groups, p.(budget := None));
      && cut.txs <= whole.txs && |cut.txs| <= |p.txs| + k
      && (k >= |Flat(groups)| ==> cut.txs == whole.txs)
    decreases |groups|
  {
    if groups != [] {
      var cut := PackGroup(e, groups[0], p.(budget := Some(k)));
      var whole := PackGroup(e, groups[0], p.(budget := None));
      PackGroupDeadline(e, groups[0], p, k);
      hide PackGroup;
      if cut.hitDeadline {
        var parts := PackGroupsParts(e, groups[1..], whole);
        assert whole.txs <= PackGroups(e, groups[1..], whole).txs;
        assert PackGroups(e, groups[1..], cut) == cut;
      } else {
        PackGroupsDeadline(e, groups[1..], whole, cut.budget.value);
        assert whole.(budget := None) == whole && whole.(budget := Some(cut.budget.value)) == cut;
      }
    }
  }

  lemma {:induction false} CountBySender(a: seq<Tx>, b: seq<Tx>)
    requires forall x :: multiset(Filter(a, By(x))) == multiset(Filter(b, By(x)))
    ensures multiset(a) == multiset(b) && |a| == |b|
  {
    forall t ensures multiset(a)[t] == multiset(b)[t] {
      CountInGroup(a, t);
      CountInGroup(b, t);
      assert multiset(Filter(a, By(t.from))) == multiset(Filter(b, By(t.from)));
      hide Filter;
    }
    assert multiset(a) == multiset(b);
    assert |multiset(a)| == |a| && |multiset(b)| == |b|;
  }

  /** The groups hold the whole pool. */
  lemma GroupsAreWhole(e: Env, txs: seq<Tx>)
    ensures multiset(Flat(Groups(e, txs))) == multiset(txs) && |Flat(Groups(e, txs))| == |txs|
  {
    var owners := GroupsAreSplit(e, txs);
    hide Groups, SplitBySender;
    forall x ensures multiset(Filter(Flat(Groups(e, txs)), By(x))) == multiset(Filter(txs, By(x))) {
      OwnersShare(e, txs, owners, x);
    }
    CountBySender(Flat(Groups(e, txs)), txs);
  }

  lemma {:induction false} OwnersShare(e: Env, txs: seq<Tx>, owners: seq<Address>, x: Address)
    requires SplitBySender(Groups(e, txs), owners) && Groups(e, txs) == MapSeq(owners, GroupFrom(txs))
    requires forall a :: a in owners <==> exists t :: t in txs && t.from == a
    ensures multiset(Filter(Flat(Groups(e, txs)), By(x))) == multiset(Filter(txs, By(x)))
  {
    SortByIsSort(Filter(txs, By(x)), NonceKey());
    hide Groups, Filter, SortBy, Flat;
    if x in owners {
      var i :| 0 <= i < |owners| && owners[i] == x;
      FlatFilter(Groups(e, txs), owners, i);
      MapAt(owners, GroupFrom(txs), i);
    } else {
      FlatOthers(Groups(e, txs), owners, x);
      FilterNone(txs, By(x));
    }
  }

  /** With a deadline after k transactions were looked at, a prefix of at most k of what would be packed without is
      packed; if the whole pool can be looked at, all of it. */
  lemma AssembledDeadline(e: Env, tip: Block, txs: seq<Tx>, builder: Address, iterations: int, now: Instant, k: nat)
    ensures
      var cut := Assembled(e, tip, txs, builder, iterations, Some(k), now).txs;
      var whole := Assembled(e, tip, txs, builder, iterations, None, now).txs;
      && cut <= whole && |cut| <= k && (k >= |txs| ==> cut == whole)
  {
    var start := Pack([], BlockSize(e, Skeleton(e, tip, builder, iterations, now)), None, false);
    PackGroupsDeadline(e, Groups(e, txs), start, k);
    GroupsAreWhole(e, txs);
    assert start.(budget := None) == start;
    hide PackGroups, Groups, Skeleton, Flat, BlockSize;
  }
}
