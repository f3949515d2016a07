/** The lottery of one proof-of-stake round: every proposer's address, once for each token staked. */
module StakeLottery {
  import opened Wrappers

  datatype Block = Block(index: int, timestamp: string, bpm: int, hash: string, prevHash: string, validator: string)

  type Stakes = map<string, int>

  /** A stake may be zero or negative: the balance is any integer that was typed in. */
  function Tickets(stakes: Stakes, address: string): nat {
    if address in stakes && stakes[address] > 0 then stakes[address] else 0
  }

  predicate Proposed(blocks: seq<Block>, address: string) {
    exists i :: 0 <= i < |blocks| && blocks[i].validator == address
  }

  /** How often each address is to stand in the pool. */
  function Weight(blocks: seq<Block>, stakes: Stakes, address: string): nat {
    if Proposed(blocks, address) then Tickets(stakes, address) else 0
  }

  function Repeat(address: string, n: nat): (r: seq<string>)
    ensures |r| == n && forall i :: 0 <= i < n ==> r[i] == address
  {
    seq(n, _ => address)
  }

  /** The pool after the blocks from the first to the last have been looked at. */
  function Pool(blocks: seq<Block>, stakes: Stakes): seq<string> {
    if blocks == [] then [] else
      var before := Pool(blocks[..|blocks| - 1], stakes);
      var address := blocks[|blocks| - 1].validator;
      if address in before then before else before + Repeat(address, Tickets(stakes, address))
  }

  lemma RepeatCount(address: string, n: nat, other: string)
    ensures multiset(Repeat(address, n))[other] == if other == address then n else 0
  {
    if n > 0 {
      assert Repeat(address, n) == Repeat(address, n - 1) + [address];
      RepeatCount(address, n - 1, other);
    }
  }

  lemma ProposedSnoc(blocks: seq<Block>, address: string)
    requires blocks != []
    ensures var n := |blocks| - 1; Proposed(blocks, address) <==> Proposed(blocks[..n], address) || blocks[n].validator == address
  {
    var n := |blocks| - 1;
    if Proposed(blocks[..n], address) {
      var i :| 0 <= i < n && blocks[..n][i].validator == address;
      assert blocks[i].validator == address;
    }
    if Proposed(blocks, address) && blocks[n].validator != address {
      var i :| 0 <= i <= n && blocks[i].validator == address;
      assert blocks[..n][i].validator == address;
    }
  }

  /** Each validator stands in the pool once per token if it proposed and is registered, else not at all,
      however often it proposed. */
  lemma {:induction false} PoolCount(blocks: seq<Block>, stakes: Stakes, address: string)
    ensures multiset(Pool(blocks, stakes))[address] == Weight(blocks, stakes, address)
  {
    if blocks != [] {
      var n := |blocks| - 1;
      var last := blocks[n].validator;
      var before := Pool(blocks[..n], stakes);
      PoolCount(blocks[..n], stakes, address);
      ProposedSnoc(blocks, address);
      if last !in before {
        RepeatCount(last, Tickets(stakes, last), address);
        assert multiset(before + Repeat(last, Tickets(stakes, last))) == multiset(before) + multiset(Repeat(last, Tickets(stakes, last)));
        if address == last { assert address !in multiset(before); }
      } else if address == last {
        assert last in multiset(before);
      }
    }
  }

  function WinningDraws(pool: seq<string>, address: string): set<nat> {
    set k: nat | k < |pool| && pool[k] == address
  }

  lemma {:induction false} WinningDrawsCount(pool: seq<string>, address: string)
    ensures |WinningDraws(pool, address)| == multiset(pool)[address]
  {
    if pool == [] {
      assert WinningDraws(pool, address) == {};
    } else {
      var n := |pool| - 1;
      WinningDrawsCount(pool[..n], address);
      assert pool == pool[..n] + [pool[n]];
      if pool[n] == address {
        assert WinningDraws(pool, address) == WinningDraws(pool[..n], address) + {n};
      } else {
        assert WinningDraws(pool, address) == WinningDraws(pool[..n], address);
      }
    }
  }

  /** Of the equally likely draws, a validator wins as many as it staked tokens. */
  lemma Chances(blocks: seq<Block>, stakes: Stakes, address: string)
    ensures |WinningDraws(Pool(blocks, stakes), address)| == Weight(blocks, stakes, address)
  {
    WinningDrawsCount(Pool(blocks, stakes), address);
    PoolCount(blocks, stakes, address);
  }

  /** The winner's first proposal. */
  function FirstBy(blocks: seq<Block>, address: string): (b: Option<Block>)
    ensures b.Some? <==> Proposed(blocks, address)
    ensures b.Some? ==> b.value in blocks && b.value.validator == address
    ensures b.Some? ==> exists i {:trigger blocks[i]} :: 0 <= i < |blocks| && blocks[i] == b.value && !Proposed(blocks[..i], address)
  {
    if blocks == [] then None
    else if blocks[0].validator == address then
      assert !Proposed(blocks[..0], address);
      Some(blocks[0])
    else
      var b := FirstBy(blocks[1..], address);
      FirstByTail(blocks, address, b);
      b
  }

  lemma FirstByTail(blocks: seq<Block>, address: string, b: Option<Block>)
    requires blocks != [] && blocks[0].validator != address
    requires b.Some? <==> Proposed(blocks[1..], address)
    requires b.Some? ==> exists i {:trigger blocks[1..][i]} :: 0 <= i < |blocks| - 1 && blocks[1..][i] == b.value && !Proposed(blocks[1..][..i], address)
    ensures Proposed(blocks[1..], address) <==> Proposed(blocks, address)
    ensures b.Some? ==> exists i {:trigger blocks[i]} :: 0 <= i < |blocks| && blocks[i] == b.value && !Proposed(blocks[..i], address)
  {
    if Proposed(blocks, address) {
      var i :| 0 <= i < |blocks| && blocks[i].validator == address;
      assert blocks[1..][i - 1].validator == address;
    }
    if Proposed(blocks[1..], address) {
      var i :| 0 <= i < |blocks| - 1 && blocks[1..][i] == b.value && !Proposed(blocks[1..][..i], address);
      assert blocks[i + 1] == b.value;
      var earlier := blocks[..i + 1];
      forall j | 0 <= j < |earlier| ensures earlier[j].validator != address {
        if j > 0 { assert blocks[1..][..i][j - 1] == earlier[j]; }
      }
    }
  }

  /** Who is in the pool has proposed. */
  lemma PoolProposed(blocks: seq<Block>, stakes: Stakes, address: string)
    requires address in Pool(blocks, stakes)
    ensures Proposed(blocks, address) && address in stakes && stakes[address] > 0
  {
    PoolCount(blocks, stakes, address);
    assert address in multiset(Pool(blocks, stakes));
  }

  // ---------- the loops ----------

  method LotteryPool(blocks: seq<Block>, stakes: Stakes) returns (pool: seq<string>)
    ensures pool == Pool(blocks, stakes)
    ensures forall address :: multiset(pool)[address] == Weight(blocks, stakes, address)
  {
    pool := [];
    for i := 0 to |blocks|
      invariant pool == Pool(blocks[..i], stakes)
    {
      var address := blocks[i].validator;
      assert blocks[..i + 1][..i] == blocks[..i];
      var listed := false;
      for j := 0 to |pool|
        invariant listed == (address in pool[..j])
      {
        if pool[j] == address {
          listed := true;
          break;
        }
      }
      if !listed {
        var n := Tickets(stakes, address);
        if address in stakes {
          var before := pool;
          var k := 0;
          while k < stakes[address]
            invariant 0 <= k <= n && pool == before + Repeat(address, k)
          {
            pool := pool + [address];
            k := k + 1;
            assert Repeat(address, k) == Repeat(address, k - 1) + [address];
          }
        }
      }
    }
    assert blocks[..|blocks|] == blocks;
    forall address ensures multiset(pool)[address] == Weight(blocks, stakes, address) {
      PoolCount(blocks, stakes, address);
    }
  }

  /** The loop that finds the winner's block. */
  method FindFirst(blocks: seq<Block>, address: string) returns (found: Option<Block>)
    ensures found == FirstBy(blocks, address)
  {
    found := None;
    for i := 0 to |blocks|
      invariant FirstBy(blocks, address) == FirstBy(blocks[i..], address)
    {
      if blocks[i].validator == address { return Some(blocks[i]); }
    }
  }
}
