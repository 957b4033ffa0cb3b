/** Hash functions without collisions exist: an injective encoding of transactions and blocks as text. */
module Hashes {
  import opened Prelude
  import opened Types

  // Each encoding tells where it ends: from a text that starts with one, both the value and the rest can
  // be read off.

  function NatText(n: nat): string {
    if n == 0 then "0" else "1" + NatText(n - 1)
  }

  lemma {:induction false} NatReads(m: nat, n: nat, x: string, y: string)
    requires NatText(m) + x == NatText(n) + y
    ensures m == n && x == y
  {
    var a, b := NatText(m) + x, NatText(n) + y;
    assert a[0] == (if m == 0 then '0' else '1') && b[0] == (if n == 0 then '0' else '1');
    if m == 0 {
      assert a[1..] == x && b[1..] == y;
    } else {
      assert a[1..] == NatText(m - 1) + x && b[1..] == NatText(n - 1) + y;
      NatReads(m - 1, n - 1, x, y);
    }
  }

  lemma TagReads(c: char, d: char, s: string, t: string, x: string, y: string)
    requires ([c] + s) + x == ([d] + t) + y
    ensures c == d && s + x == t + y
  {
    var a, b := ([c] + s) + x, ([d] + t) + y;
    assert a[0] == c && b[0] == d;
    assert a[1..] == s + x && b[1..] == t + y;
  }

  function Sign(n: int): char {
    if n < 0 then '-' else '+'
  }

  function Size(n: int): nat {
    if n < 0 then -n else n
  }

  function IntText(n: int): string {
    [Sign(n)] + NatText(Size(n))
  }

  lemma IntReads(m: int, n: int, x: string, y: string)
    requires IntText(m) + x == IntText(n) + y
    ensures m == n && x == y
  {
    TagReads(Sign(m), Sign(n), NatText(Size(m)), NatText(Size(n)), x, y);
    NatReads(Size(m), Size(n), x, y);
  }

  function Text(s: string): string {
    NatText(|s|) + s
  }

  lemma TextReads(s: string, t: string, x: string, y: string)
    requires Text(s) + x == Text(t) + y
    ensures s == t && x == y
  {
    assert Text(s) + x == NatText(|s|) + (s + x) && Text(t) + y == NatText(|t|) + (t + y);
    NatReads(|s|, |t|, s + x, t + y);
    assert s == (s + x)[..|s|] && t == (t + y)[..|t|];
    assert x == (s + x)[|s|..] && y == (t + y)[|t|..];
  }

  function OptionText(o: Option<string>): string {
    if o.None? then ['n'] + "" else ['s'] + Text(o.value)
  }

  lemma OptionReads(o: Option<string>, p: Option<string>, x: string, y: string)
    requires OptionText(o) + x == OptionText(p) + y
    ensures o == p && x == y
  {
    TagReads(if o.None? then 'n' else 's', if p.None? then 'n' else 's', if o.None? then "" else Text(o.value),
             if p.None? then "" else Text(p.value), x, y);
    if o.Some? {
      TextReads(o.value, p.value, x, y);
    } else {
      assert "" + x == x && "" + y == y;
    }
  }

  /** A missing or present number. */
  function CountText(o: Option<int>): string {
    OptionText(if o.None? then None else Some(IntText(o.value)))
  }

  lemma CountReads(o: Option<int>, p: Option<int>, x: string, y: string)
    requires CountText(o) + x == CountText(p) + y
    ensures o == p && x == y
  {
    OptionReads(if o.None? then None else Some(IntText(o.value)),
                if p.None? then None else Some(IntText(p.value)), x, y);
    if o.Some? {
      assert IntText(o.value) + "" == IntText(p.value) + "";
      IntReads(o.value, p.value, "", "");
    }
  }

  // ------------------------------------------------------------------------ lists of encoded items

  function Joined(items: seq<string>): string {
    if items == [] then "" else Text(items[0]) + Joined(items[1..])
  }

  function ListText(items: seq<string>): string {
    NatText(|items|) + Joined(items)
  }

  lemma {:induction false} JoinedReads(a: seq<string>, b: seq<string>, x: string, y: string)
    requires |a| == |b| && Joined(a) + x == Joined(b) + y
    ensures a == b && x == y
  {
    if a != [] {
      assert Joined(a) + x == Text(a[0]) + (Joined(a[1..]) + x);
      assert Joined(b) + y == Text(b[0]) + (Joined(b[1..]) + y);
      TextReads(a[0], b[0], Joined(a[1..]) + x, Joined(b[1..]) + y);
      JoinedReads(a[1..], b[1..], x, y);
      assert a == [a[0]] + a[1..] && b == [b[0]] + b[1..];
    } else {
      assert Joined(a) + x == x && Joined(b) + y == y;
    }
  }

  lemma ListReads(a: seq<string>, b: seq<string>)
    requires ListText(a) == ListText(b)
    ensures a == b
  {
    NatReads(|a|, |b|, Joined(a), Joined(b));
    assert Joined(a) + "" == Joined(b) + "";
    JoinedReads(a, b, "", "");
  }

  // ------------------------------------------------------------------------ transactions and blocks

  function OutputText(o: Output): string {
    ListText([o.to, IntText(o.amount)])
  }

  lemma IntTextDecides(m: int, n: int)
    requires IntText(m) == IntText(n)
    ensures m == n
  {
    assert IntText(m) + "" == IntText(n) + "";
    IntReads(m, n, "", "");
  }

  lemma OutputDecides(o: Output, p: Output)
    requires OutputText(o) == OutputText(p)
    ensures o == p
  {
    var a, b := [o.to, IntText(o.amount)], [p.to, IntText(p.amount)];
    ListReads(a, b);
    assert a[0] == b[0] && a[1] == b[1];
    IntTextDecides(o.amount, p.amount);
  }

  function OutputTexts(outs: seq<Output>): (r: seq<string>)
    ensures |r| == |outs| && forall i :: 0 <= i < |outs| ==> r[i] == OutputText(outs[i])
  {
    seq(|outs|, i requires 0 <= i < |outs| => OutputText(outs[i]))
  }

  function TxFields(t: Tx): seq<string> {
    [t.from, t.pubkey, ListText(OutputTexts(t.outputs)), IntText(t.nonce), IntText(t.fee), t.signature]
  }

  function TxText(t: Tx): string {
    ListText(TxFields(t))
  }

  lemma TxDecides(t: Tx, u: Tx)
    requires TxText(t) == TxText(u)
    ensures t == u
  {
    var a, b := TxFields(t), TxFields(u);
    ListReads(a, b);
    assert a[0] == b[0] && a[1] == b[1] && a[2] == b[2] && a[3] == b[3] && a[4] == b[4] && a[5] == b[5];
    IntTextDecides(t.nonce, u.nonce);
    IntTextDecides(t.fee, u.fee);
    ListReads(OutputTexts(t.outputs), OutputTexts(u.outputs));
    forall i | 0 <= i < |t.outputs| ensures t.outputs[i] == u.outputs[i] {
      assert OutputTexts(t.outputs)[i] == OutputTexts(u.outputs)[i];
      OutputDecides(t.outputs[i], u.outputs[i]);
    }
    assert t.outputs == u.outputs;
  }

  function TxTexts(txs: seq<Tx>): (r: seq<string>)
    ensures |r| == |txs| && forall i :: 0 <= i < |txs| ==> r[i] == TxText(txs[i])
  {
    seq(|txs|, i requires 0 <= i < |txs| => TxText(txs[i]))
  }

  function BlockFields(b: Block): seq<string> {
    [IntText(b.height), b.previousHash, IntText(b.timestamp), ListText(TxTexts(b.txs)), OptionText(b.builder),
     OptionText(b.message), OptionText(b.vdfOutput), OptionText(b.vdfProof), IntText(b.vdfIterations),
     CountText(b.txBytes), b.hash]
  }

  function BlockText(b: Block): string {
    ListText(BlockFields(b))
  }

  lemma OptionDecides(o: Option<string>, p: Option<string>)
    requires OptionText(o) == OptionText(p)
    ensures o == p
  {
    assert OptionText(o) + "" == OptionText(p) + "";
    OptionReads(o, p, "", "");
  }

  lemma TxTextsDecide(a: seq<Tx>, b: seq<Tx>)
    requires ListText(TxTexts(a)) == ListText(TxTexts(b))
    ensures a == b
  {
    ListReads(TxTexts(a), TxTexts(b));
    forall i | 0 <= i < |a| ensures a[i] == b[i] {
      assert TxTexts(a)[i] == TxTexts(b)[i];
      TxDecides(a[i], b[i]);
    }
  }

  lemma BlockDecides(b: Block, c: Block)
    requires BlockText(b) == BlockText(c)
    ensures b == c
  {
    var x, y := BlockFields(b), BlockFields(c);
    ListReads(x, y);
    hide ListText, OptionText, CountText, IntText, TxTexts;
    assert x[0] == y[0] && x[1] == y[1] && x[2] == y[2] && x[3] == y[3] && x[4] == y[4] && x[5] == y[5];
    assert x[6] == y[6] && x[7] == y[7] && x[8] == y[8] && x[9] == y[9] && x[10] == y[10];
    IntTextDecides(b.height, c.height);
    IntTextDecides(b.timestamp, c.timestamp);
    IntTextDecides(b.vdfIterations, c.vdfIterations);
    TxTextsDecide(b.txs, c.txs);
    OptionDecides(b.builder, c.builder);
    OptionDecides(b.message, c.message);
    OptionDecides(b.vdfOutput, c.vdfOutput);
    OptionDecides(b.vdfProof, c.vdfProof);
    assert CountText(b.txBytes) + "" == CountText(c.txBytes) + "";
    CountReads(b.txBytes, c.txBytes, "", "");
  }

  /** An environment whose hashes are the encodings; every check of a foreign function passes. */
  function PlainEnv(): Env {
    Env(s => true, s => true, s => s, t => true, t => TxText(t), t => 0, t => 0, b => BlockText(b), b => 0,
        (h, a) => h + a, (c, o, p, n) => true, 0, "")
  }

  lemma PlainEnvIsCollisionFree()
    ensures CollisionFree(PlainEnv())
  {
    var e := PlainEnv();
    forall t, u | e.bodyHash(t) == e.bodyHash(u) ensures t == u {
      TxDecides(t, u);
    }
    forall b, c | e.contentHash(b) == e.contentHash(c) ensures b == c {
      BlockDecides(b, c);
    }
  }

  /** The hypothesis on the hash functions can be met. */
  lemma CollisionFreeExists()
    ensures exists e: Env :: CollisionFree(e)
  {
    PlainEnvIsCollisionFree();
  }
}
