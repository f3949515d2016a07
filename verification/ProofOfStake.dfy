/** The node: connections propose blocks, rounds append one of them to the chain. */
module ProofOfStake {
  import opened Wrappers
  import opened StakeLottery

  /** SHA-256 in hexadecimal, and Go's conversion of an integer to the string of one rune. */
  datatype Hasher = Hasher(digest: string -> string, rune: int -> string)

  /** `calculateBlockHash`: the validator does not enter. */
  function BlockHash(h: Hasher, b: Block): string {
    h.digest(h.rune(b.index) + b.timestamp + h.rune(b.bpm) + b.prevHash)
  }

  predicate IsBlockValid(h: Hasher, block: Block, parent: Block) {
    parent.index + 1 == block.index && parent.hash == block.prevHash && BlockHash(h, block) == block.hash
  }

  function GenerateBlock(h: Hasher, parent: Block, timestamp: string, bpm: int, address: string): (b: Block)
    ensures IsBlockValid(h, b, parent) && b.validator == address && b.bpm == bpm && b.timestamp == timestamp
  {
    var b := Block(parent.index + 1, timestamp, bpm, "", parent.hash, "");
    b.(hash := BlockHash(h, b), validator := address)
  }

  function Genesis(h: Hasher, timestamp: string): Block {
    Block(0, timestamp, 0, BlockHash(h, Block(0, "", 0, "", "", "")), "", "")
  }

  // ---------- the node as a step system ----------

  /** A round takes a snapshot of the proposals, draws from it, and clears the proposals. A draw from an empty pool panics. */
  datatype Phase = Waiting | Drawing(snapshot: seq<Block>) | Clearing | Panicked

  /** `sent` are the blocks on their way through the channel; `temp` is `tempBlocks`. */
  datatype Node = Node(chain: seq<Block>, sent: seq<Block>, temp: seq<Block>, stakes: Stakes, phase: Phase)

  datatype Action =
    | Register(address: string, balance: int)
    | Drop(address: string)
    | Propose(timestamp: string, bpm: int, address: string)
    | Collect(i: nat)
    | Snapshot
    | Draw(draw: nat)
    | Clear

  predicate Enabled(n: Node, a: Action) {
    !n.phase.Panicked? &&
    match a
    case Register(_, _) => true
    case Drop(_) => true
    case Propose(_, _, _) => n.chain != []
    case Collect(i) => i < |n.sent|
    case Snapshot => n.phase.Waiting?
    case Draw(draw) => n.phase.Drawing? && (Pool(n.phase.snapshot, n.stakes) != [] ==> draw < |Pool(n.phase.snapshot, n.stakes)|)
    case Clear => n.phase.Clearing?
  }

  /** The block a draw appends, if any. */
  function Winner(n: Node, a: Action): (b: Option<Block>)
    requires Enabled(n, a)
    ensures b.Some? ==> n.phase.Drawing? && b.value in n.phase.snapshot
  {
    if !a.Draw? || n.phase.snapshot == [] || Pool(n.phase.snapshot, n.stakes) == [] then None
    else FirstBy(n.phase.snapshot, Pool(n.phase.snapshot, n.stakes)[a.draw])
  }

  function Do(h: Hasher, n: Node, a: Action): Node
    requires Enabled(n, a)
  {
    match a
    case Register(address, balance) => n.(stakes := n.stakes[address := balance])
    case Drop(address) => n.(stakes := n.stakes - {address})
    case Propose(timestamp, bpm, address) => n.(sent := n.sent + [GenerateBlock(h, n.chain[|n.chain| - 1], timestamp, bpm, address)])
    case Collect(i) => n.(sent := n.sent[..i] + n.sent[i + 1..], temp := n.temp + [n.sent[i]])
    case Snapshot => n.(phase := Drawing(n.temp))
    case Draw(_) =>
      if n.phase.snapshot == [] then n.(phase := Clearing)
      else if Pool(n.phase.snapshot, n.stakes) == [] then n.(phase := Panicked)
      else
        var won := Winner(n, a);
        n.(phase := Clearing, chain := n.chain + if won.Some? then [won.value] else [])
    case Clear => n.(phase := Waiting, temp := [])
  }

  function Start(h: Hasher, timestamp: string): Node {
    Node([Genesis(h, timestamp)], [], [], map[], Waiting)
  }

  predicate Runs(h: Hasher, n: Node, actions: seq<Action>)
    decreases |actions|
  {
    actions == [] || (Enabled(n, actions[0]) && Runs(h, Do(h, n, actions[0]), actions[1..]))
  }

  function Run(h: Hasher, n: Node, actions: seq<Action>): Node
    requires Runs(h, n, actions)
    decreases |actions|
  {
    if actions == [] then n else Run(h, Do(h, n, actions[0]), actions[1..])
  }

  // ---------- when the chain stays linked ----------

  predicate Linked(h: Hasher, chain: seq<Block>) {
    chain != [] && chain[0].index == 0 && forall i :: 1 <= i < |chain| ==> IsBlockValid(h, chain[i], chain[i - 1])
  }

  /** The block was built on some block of the chain. */
  predicate BuiltOn(h: Hasher, b: Block, chain: seq<Block>) {
    1 <= b.index <= |chain| && IsBlockValid(h, b, chain[b.index - 1])
  }

  predicate AllBuiltOn(h: Hasher, blocks: seq<Block>, chain: seq<Block>) {
    forall i :: 0 <= i < |blocks| ==> BuiltOn(h, blocks[i], chain)
  }

  predicate Inv(h: Hasher, n: Node) {
    && Linked(h, n.chain)
    && AllBuiltOn(h, n.sent, n.chain)
    && AllBuiltOn(h, n.temp, n.chain)
    && (n.phase.Drawing? ==> AllBuiltOn(h, n.phase.snapshot, n.chain))
  }

  /** What is appended, if anything, has the next index: nothing was appended since it was built. */
  predicate Fresh(n: Node, a: Action)
    requires Enabled(n, a)
  {
    Winner(n, a).Some? ==> Winner(n, a).value.index == |n.chain|
  }

  lemma {:induction false} LinkedIndex(h: Hasher, chain: seq<Block>, i: nat)
    requires Linked(h, chain) && i < |chain|
    ensures chain[i].index == i
  {
    if i > 0 { LinkedIndex(h, chain, i - 1); }
  }

  /** A draw panics exactly if somebody proposed, but nobody who did holds a token. */
  lemma DrawPanics(h: Hasher, n: Node, a: Action)
    requires Enabled(n, a) && a.Draw?
    ensures Do(h, n, a).phase.Panicked? <==>
      n.phase.snapshot != [] && forall b :: b in n.phase.snapshot ==> Tickets(n.stakes, b.validator) == 0
  {
    var snapshot, pool := n.phase.snapshot, Pool(n.phase.snapshot, n.stakes);
    if pool == [] {
      forall b | b in snapshot ensures Tickets(n.stakes, b.validator) == 0 {
        assert Proposed(snapshot, b.validator);
        PoolCount(snapshot, n.stakes, b.validator);
      }
    } else {
      PoolProposed(snapshot, n.stakes, pool[0]);
      var i :| 0 <= i < |snapshot| && snapshot[i].validator == pool[0];
      assert snapshot[i] in snapshot && Tickets(n.stakes, snapshot[i].validator) > 0;
    }
  }

  /** A draw that does not panic ends the round. If somebody proposed, exactly one block is appended: of the proposals of the
      address drawn, which holds a token, the first. */
  lemma DrawAppends(h: Hasher, n: Node, a: Action)
    requires Enabled(n, a) && a.Draw?
    ensures var m, snapshot, pool := Do(h, n, a), n.phase.snapshot, Pool(n.phase.snapshot, n.stakes);
      && m == n.(phase := m.phase, chain := m.chain) && (m.phase.Panicked? || m.phase.Clearing?)
      && if m.phase.Panicked? || snapshot == [] then m.chain == n.chain
         else a.draw < |pool| && Tickets(n.stakes, pool[a.draw]) > 0 && AppendsFirst(n.chain, m.chain, snapshot, pool[a.draw])
  {
    var snapshot, pool := n.phase.snapshot, Pool(n.phase.snapshot, n.stakes);
    if pool != [] {
      PoolProposed(snapshot, n.stakes, pool[a.draw]);
      var b := FirstBy(snapshot, pool[a.draw]).value;
      var i :| 0 <= i < |snapshot| && snapshot[i] == b && !Proposed(snapshot[..i], pool[a.draw]);
      assert Do(h, n, a).chain == n.chain + [snapshot[i]];
    }
  }

  predicate AppendsFirst(before: seq<Block>, after: seq<Block>, blocks: seq<Block>, address: string) {
    exists i {:trigger blocks[i]} :: 0 <= i < |blocks|
      && after == before + [blocks[i]] && blocks[i].validator == address && !Proposed(blocks[..i], address)
  }

  lemma AppendLinked(h: Hasher, chain: seq<Block>, b: Block)
    requires Linked(h, chain) && BuiltOn(h, b, chain)
    ensures if b.index == |chain| then Linked(h, chain + [b]) else !Linked(h, chain + [b])
  {
    var tip := |chain| - 1;
    LinkedIndex(h, chain, tip);
    assert (chain + [b])[tip + 1] == b && (chain + [b])[tip] == chain[tip];
  }

  /** A step keeps the chain linked exactly if what it appends is fresh. */
  lemma StepLinked(h: Hasher, n: Node, a: Action)
    requires Inv(h, n) && Enabled(n, a)
    ensures n.chain <= Do(h, n, a).chain
    ensures if Fresh(n, a) then Inv(h, Do(h, n, a)) else !Linked(h, Do(h, n, a).chain)
  {
    var m := Do(h, n, a);
    LinkedIndex(h, n.chain, |n.chain| - 1);
    match a
    case Propose(timestamp, bpm, address) =>
      assert BuiltOn(h, m.sent[|n.sent|], n.chain);
    case Draw(_) =>
      var won := Winner(n, a);
      if won.Some? {
        var i :| 0 <= i < |n.phase.snapshot| && n.phase.snapshot[i] == won.value;
        AppendLinked(h, n.chain, won.value);
      }
    case _ =>
  }

  predicate AllFresh(h: Hasher, n: Node, actions: seq<Action>)
    requires Runs(h, n, actions)
    decreases |actions|
  {
    actions == [] || (Fresh(n, actions[0]) && AllFresh(h, Do(h, n, actions[0]), actions[1..]))
  }

  lemma {:induction false} ChainGrows(h: Hasher, n: Node, actions: seq<Action>)
    requires Runs(h, n, actions)
    ensures n.chain <= Run(h, n, actions).chain
    decreases |actions|
  {
    if actions != [] { ChainGrows(h, Do(h, n, actions[0]), actions[1..]); }
  }

  lemma LinkedPrefix(h: Hasher, chain: seq<Block>, longer: seq<Block>)
    requires chain <= longer && chain != [] && Linked(h, longer)
    ensures Linked(h, chain)
  {
    assert chain == longer[..|chain|];
  }

  /** The chain is linked after any run exactly if every block appended on the way was fresh. */
  lemma {:induction false} RunLinked(h: Hasher, n: Node, actions: seq<Action>)
    requires Inv(h, n) && Runs(h, n, actions)
    ensures Linked(h, Run(h, n, actions).chain) <==> AllFresh(h, n, actions)
    decreases |actions|
  {
    if actions != [] {
      var m := Do(h, n, actions[0]);
      StepLinked(h, n, actions[0]);
      if Fresh(n, actions[0]) {
        RunLinked(h, m, actions[1..]);
      } else {
        ChainGrows(h, m, actions[1..]);
        if Linked(h, Run(h, m, actions[1..]).chain) { LinkedPrefix(h, m.chain, Run(h, m, actions[1..]).chain); }
      }
    }
  }

  lemma ChainLinked(h: Hasher, timestamp: string, actions: seq<Action>)
    requires Runs(h, Start(h, timestamp), actions)
    ensures Linked(h, Run(h, Start(h, timestamp), actions).chain) <==> AllFresh(h, Start(h, timestamp), actions)
  {
    RunLinked(h, Start(h, timestamp), actions);
  }

  // ---------- what the hashes pin down ----------

  /** What a hash covers: index, timestamp, number and previous hash, run together; not the validator. */
  function Record(h: Hasher, b: Block): string {
    h.rune(b.index) + b.timestamp + h.rune(b.bpm) + b.prevHash
  }

  predicate Collision(h: Hasher, x: string, y: string) {
    x != y && h.digest(x) == h.digest(y)
  }

  /** Valid blocks have the same hash exactly if their records agree, or collide. The validator can be exchanged. */
  lemma HashCoversRecord(h: Hasher, a: Block, b: Block, p: Block, q: Block, other: string)
    requires IsBlockValid(h, a, p) && IsBlockValid(h, b, q)
    ensures a.hash == b.hash <==> Record(h, a) == Record(h, b) || Collision(h, Record(h, a), Record(h, b))
    ensures IsBlockValid(h, a.(validator := other), p)
  {
  }

  /** Some block of the one chain collides with that at the same height of the other. */
  predicate Collide(h: Hasher, a: seq<Block>, b: seq<Block>)
    requires |a| == |b|
  {
    exists i :: 1 <= i < |a| && Collision(h, Record(h, a[i]), Record(h, b[i]))
  }

  lemma CollideLonger(h: Hasher, a: seq<Block>, b: seq<Block>, n: nat)
    requires |a| == |b| && n <= |a| && Collide(h, a[..n], b[..n])
    ensures Collide(h, a, b)
  {
    var i :| 1 <= i < n && Collision(h, Record(h, a[..n][i]), Record(h, b[..n][i]));
    assert Collision(h, Record(h, a[i]), Record(h, b[i]));
  }

  lemma SameEnding(x: string, p: string, y: string, q: string)
    requires x + p == y + q && |p| == |q|
    ensures p == q
  {
    assert p == (x + p)[|x|..] && q == (y + q)[|x|..] && |x| == |y|;
  }

  /** The hash of the tip pins down the whole chain: two linked chains of one length whose tips share their hash agree in
      every hash and every record behind the genesis block, unless two of their blocks collide. */
  lemma {:induction false} TipPinsChain(h: Hasher, n: nat, a: seq<Block>, b: seq<Block>)
    requires (forall x :: |h.digest(x)| == n) && Linked(h, a) && Linked(h, b) && |a| == |b| && |a[0].hash| == |b[0].hash| == n
    requires a[|a| - 1].hash == b[|b| - 1].hash && !Collide(h, a, b)
    ensures forall i :: 0 <= i < |a| ==> a[i].hash == b[i].hash
    ensures forall i :: 1 <= i < |a| ==> Record(h, a[i]) == Record(h, b[i])
    decreases |a|
  {
    var t := |a| - 1;
    if t > 0 {
      assert IsBlockValid(h, a[t], a[t - 1]) && IsBlockValid(h, b[t], b[t - 1]);
      HashCoversRecord(h, a[t], b[t], a[t - 1], b[t - 1], "");
      HashLength(h, n, a, t - 1);
      HashLength(h, n, b, t - 1);
      SameEnding(h.rune(a[t].index) + a[t].timestamp + h.rune(a[t].bpm), a[t].prevHash,
                 h.rune(b[t].index) + b[t].timestamp + h.rune(b[t].bpm), b[t].prevHash);
      if Collide(h, a[..t], b[..t]) { CollideLonger(h, a, b, t); }
      TipPinsChain(h, n, a[..t], b[..t]);
      forall i | 0 <= i < t ensures a[i].hash == b[i].hash && (i > 0 ==> Record(h, a[i]) == Record(h, b[i])) {
        assert a[..t][i] == a[i] && b[..t][i] == b[i];
      }
    }
  }

  lemma HashLength(h: Hasher, n: nat, chain: seq<Block>, i: nat)
    requires (forall x :: |h.digest(x)| == n) && Linked(h, chain) && i < |chain| && |chain[0].hash| == n
    ensures |chain[i].hash| == n
  {
    if i > 0 { assert IsBlockValid(h, chain[i], chain[i - 1]); }
  }

  // ---------- a condition on the channel ----------

  /** No block is in the channel when one is appended. */
  predicate Quiet(h: Hasher, n: Node, actions: seq<Action>)
    requires Runs(h, n, actions)
    decreases |actions|
  {
    actions == [] || ((Winner(n, actions[0]).Some? ==> n.sent == []) && Quiet(h, Do(h, n, actions[0]), actions[1..]))
  }

  predicate AllNext(blocks: seq<Block>, n: Node) {
    forall i :: 0 <= i < |blocks| ==> blocks[i].index == |n.chain|
  }

  predicate NoneStale(n: Node) {
    AllNext(n.sent, n) && (n.phase.Clearing? || AllNext(n.temp, n)) && (n.phase.Drawing? ==> AllNext(n.phase.snapshot, n))
  }

  lemma QuietStep(h: Hasher, n: Node, a: Action)
    requires Inv(h, n) && NoneStale(n) && Enabled(n, a) && (Winner(n, a).Some? ==> n.sent == [])
    ensures Fresh(n, a) && NoneStale(Do(h, n, a))
  {
    LinkedIndex(h, n.chain, |n.chain| - 1);
    if Winner(n, a).Some? {
      var i :| 0 <= i < |n.phase.snapshot| && n.phase.snapshot[i] == Winner(n, a).value;
    }
  }

  /** Rounds keep the chain linked whenever the channel is empty at each append. */
  lemma {:induction false} QuietRunLinked(h: Hasher, n: Node, actions: seq<Action>)
    requires Inv(h, n) && NoneStale(n) && Runs(h, n, actions) && Quiet(h, n, actions)
    ensures AllFresh(h, n, actions) && Linked(h, Run(h, n, actions).chain)
    decreases |actions|
  {
    if actions != [] {
      QuietStep(h, n, actions[0]);
      StepLinked(h, n, actions[0]);
      QuietRunLinked(h, Do(h, n, actions[0]), actions[1..]);
    }
  }

  // ---------- a run that breaks the chain ----------

  predicate Does(h: Hasher, n: Node, actions: seq<Action>, m: Node) {
    Runs(h, n, actions) && Run(h, n, actions) == m
  }

  lemma {:induction false} Compose(h: Hasher, n: Node, first: seq<Action>, m: Node, second: seq<Action>, end: Node)
    requires Does(h, n, first, m) && Does(h, m, second, end)
    ensures Does(h, n, first + second, end)
    decreases |first|
  {
    if first == [] {
      assert first + second == second;
    } else {
      assert (first + second)[1..] == first[1..] + second;
      Compose(h, Do(h, n, first[0]), first[1..], m, second, end);
    }
  }

  lemma Steps(h: Hasher, n0: Node, n1: Node, n2: Node, n3: Node, n4: Node, a: seq<Action>)
    requires |a| == 4
    requires Enabled(n0, a[0]) && Do(h, n0, a[0]) == n1 && Enabled(n1, a[1]) && Do(h, n1, a[1]) == n2
    requires Enabled(n2, a[2]) && Do(h, n2, a[2]) == n3 && Enabled(n3, a[3]) && Do(h, n3, a[3]) == n4
    ensures Does(h, n0, a, n4)
  {
    assert a[1..][0] == a[1] && a[1..][1..] == a[2..] && a[2..][0] == a[2] && a[2..][1..] == a[3..] && a[3..][0] == a[3] && a[3..][1..] == [];
    assert Does(h, n4, [], n4);
    assert Does(h, n3, a[3..], n4);
    assert Does(h, n2, a[2..], n4);
    assert Does(h, n1, a[1..], n4);
  }

  /** A round with a single proposal, by a validator with one token, appends it. */
  lemma RoundOf(h: Hasher, n: Node, round: seq<Action>)
    requires round == [Collect(0), Snapshot, Draw(0), Clear]
    requires n.phase == Waiting && n.temp == [] && n.sent != [] && Tickets(n.stakes, n.sent[0].validator) == 1
    ensures Does(h, n, round, n.(chain := n.chain + [n.sent[0]], sent := n.sent[1..]))
  {
    var b := n.sent[0];
    var n1 := n.(sent := n.sent[1..], temp := [b]);
    assert n.sent[..0] + n.sent[1..] == n.sent[1..];
    var n2 := n1.(phase := Drawing([b]));
    assert [b][..0] == [];
    assert Pool([b], n.stakes) == [b.validator];
    var n3 := n2.(phase := Clearing, chain := n.chain + [b]);
    var n4 := n3.(phase := Waiting, temp := []);
    Steps(h, n, n1, n2, n3, n4, round);
  }

  const SETUP := [Register("a", 1), Register("b", 1), Propose("t", 60, "a"), Propose("t", 61, "b")]
  const ROUND := [Collect(0), Snapshot, Draw(0), Clear]

  /** Two validators with one token each have proposed, and both blocks are in the channel. */
  function TwoSent(n: Node, x: Block, y: Block): Node {
    n.(sent := [x, y], stakes := map["a" := 1, "b" := 1])
  }

  lemma Setup(h: Hasher, n: Node, x: Block, y: Block)
    requires n.chain != [] && n.sent == [] && n.stakes == map[] && n.phase == Waiting
    requires x == GenerateBlock(h, n.chain[|n.chain| - 1], "t", 60, "a") && y == GenerateBlock(h, n.chain[|n.chain| - 1], "t", 61, "b")
    ensures Does(h, n, SETUP, TwoSent(n, x, y))
  {
    var n1 := n.(stakes := map["a" := 1]);
    var n2 := n.(stakes := map["a" := 1, "b" := 1]);
    var n3 := n2.(sent := [x]);
    Steps(h, n, n1, n2, n3, TwoSent(n, x, y), SETUP);
  }

  /** Two blocks are built on the genesis block, but the second is collected only after the first was appended.
      The next round appends it all the same. */
  lemma StaleCandidate(h: Hasher, timestamp: string)
    ensures exists actions :: Runs(h, Start(h, timestamp), actions) && !Linked(h, Run(h, Start(h, timestamp), actions).chain)
  {
    var n0 := Start(h, timestamp);
    var g := n0.chain[0];
    var x, y := GenerateBlock(h, g, "t", 60, "a"), GenerateBlock(h, g, "t", 61, "b");
    var n1 := TwoSent(n0, x, y);
    var n2 := n1.(chain := [g, x], sent := [y]);
    var n3 := n1.(chain := [g, x, y], sent := []);
    Setup(h, n0, x, y);
    RoundOf(h, n1, ROUND);
    RoundOf(h, n2, ROUND);
    Compose(h, n0, SETUP, n1, ROUND, n2);
    Compose(h, n0, SETUP + ROUND, n2, ROUND, n3);
    assert !IsBlockValid(h, n3.chain[2], n3.chain[1]);
  }

  /** A validator that entered a balance of 0 proposes alone. */
  lemma EmptyPool(h: Hasher, timestamp: string)
    ensures exists actions :: Runs(h, Start(h, timestamp), actions) && Run(h, Start(h, timestamp), actions).phase.Panicked?
  {
    var n0 := Start(h, timestamp);
    var b := GenerateBlock(h, n0.chain[0], "t", 60, "a");
    var n1 := n0.(stakes := map["a" := 0]);
    var n2 := n1.(sent := [b]);
    var n3 := n1.(temp := [b]);
    var n4 := n3.(phase := Drawing([b]));
    var n5 := n3.(phase := Panicked);
    assert [b][..0] == [] && Pool([b], n1.stakes) == [];
    assert Does(h, n1, [], n1);
    assert Does(h, n0, [Register("a", 0)], n1);
    var round := [Propose("t", 60, "a"), Collect(0), Snapshot, Draw(0)];
    Steps(h, n1, n2, n3, n4, n5, round);
    Compose(h, n0, [Register("a", 0)], n1, round, n5);
  }

  // ---------- the shared variables ----------

  class Network {
    const h: Hasher
    var blockchain: seq<Block>
    var tempBlocks: seq<Block>
    var validators: Stakes
    ghost var channel: seq<Block>

    ghost function State(phase: Phase): Node
      reads this
    {
      Node(blockchain, channel, tempBlocks, validators, phase)
    }

    constructor (h: Hasher, timestamp: string)
      ensures this.h == h && State(Waiting) == Start(h, timestamp)
    {
      this.h := h;
      blockchain, tempBlocks, validators, channel := [Genesis(h, timestamp)], [], map[], [];
    }

    /** A balance is entered on a new connection. */
    method EnterBalance(address: string, balance: int)
      modifies this`validators
      ensures State(Waiting) == Do(h, old(State(Waiting)), Register(address, balance))
    {
      validators := validators[address := balance];
    }

    /** A number is entered on a connection. The check of the block always succeeds. */
    method EnterBpm(timestamp: string, bpm: int, address: string) returns (candidate: Option<Block>)
      requires blockchain != []
      modifies this`channel
      ensures State(Waiting) == Do(h, old(State(Waiting)), Propose(timestamp, bpm, address))
      ensures candidate == Some(GenerateBlock(h, blockchain[|blockchain| - 1], timestamp, bpm, address))
    {
      var oldLast := blockchain[|blockchain| - 1];
      var newBlock := GenerateBlock(h, oldLast, timestamp, bpm, address);
      candidate := None;
      if IsBlockValid(h, newBlock, oldLast) {
        channel := channel + [newBlock];
        candidate := Some(newBlock);
      }
    }

    /** Something that is not a number is entered: the address is deleted, but the code goes on to build a block with the
        number that `strconv.Atoi` returns beside its error, 0 unless the input was a number out of range. */
    method EnterGarbage(timestamp: string, bpm: int, address: string) returns (candidate: Option<Block>)
      requires blockchain != []
      modifies this`validators, this`channel
      ensures State(Waiting) == Do(h, Do(h, old(State(Waiting)), Drop(address)), Propose(timestamp, bpm, address))
      ensures candidate == Some(GenerateBlock(h, blockchain[|blockchain| - 1], timestamp, bpm, address))
    {
      validators := validators - {address};
      candidate := EnterBpm(timestamp, bpm, address);
    }

    /** The goroutine that collects candidates receives one. */
    method CollectCandidate(candidate: Block, ghost i: nat)
      requires i < |channel| && channel[i] == candidate
      modifies this`tempBlocks, this`channel
      ensures State(Waiting) == Do(h, old(State(Waiting)), Collect(i))
    {
      tempBlocks := tempBlocks + [candidate];
      channel := channel[..i] + channel[i + 1..];
    }

    /** `pickWinner`, undisturbed by the other goroutines; it answers whether it gets past the draw. */
    method PickWinner(draw: nat) returns (ok: bool)
      requires draw < |Pool(tempBlocks, validators)| || Pool(tempBlocks, validators) == []
      modifies this`blockchain, this`tempBlocks
      ensures Runs(h, old(State(Waiting)), [Snapshot, Draw(draw)] + if ok then [Clear] else [])
      ensures State(if ok then Waiting else Panicked) == Run(h, old(State(Waiting)), [Snapshot, Draw(draw)] + if ok then [Clear] else [])
    {
      ghost var n0 := State(Waiting);
      ghost var n1 := Do(h, n0, Snapshot);
      ghost var n2 := Do(h, n1, Draw(draw));
      var temp := tempBlocks;
      if temp != [] {
        var lotteryPool := LotteryPool(temp, validators);
        if lotteryPool == [] {
          TwoSteps(h, n0, Snapshot, Draw(draw));
          assert [Snapshot, Draw(draw)] + [] == [Snapshot, Draw(draw)];
          return false;
        }
        var won := FindFirst(temp, lotteryPool[draw]);
        if won.Some? { blockchain := blockchain + [won.value]; }
      }
      tempBlocks := [];
      TwoSteps(h, n0, Snapshot, Draw(draw));
      Compose(h, n0, [Snapshot, Draw(draw)], n2, [Clear], Do(h, n2, Clear));
      return true;
    }
  }

  lemma TwoSteps(h: Hasher, n: Node, a: Action, b: Action)
    requires Enabled(n, a) && Enabled(Do(h, n, a), b)
    ensures Does(h, n, [a, b], Do(h, Do(h, n, a), b))
  {
    var m := Do(h, n, a);
    assert [a, b][1..] == [b] && [b][1..] == [];
    assert Does(h, Do(h, m, b), [], Do(h, m, b));
    assert Does(h, m, [b], Do(h, m, b));
  }
}
