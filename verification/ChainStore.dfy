/** The chain in PostgreSQL (src/db.rs:1506-1634): a `blocks` table keyed by hash and a
    `meta` row naming the tip. A block is stored by two statements, insert then tip
    update, with no transaction around them. */
module ChainStore {
  import opened Wrappers
  import opened Ledger
  import opened Mempool

  datatype StoreError = DuplicateHash | MissingBlock

  /** The two tables. */
  datatype Tables = Tables(rows: map<string, Block>, tip: Option<string>)

  const EMPTY_TABLES := Tables(map[], None)

  /** Following previous hashes from the tip visits exactly `chain`, last block first.
      Rows of interrupted stores may lie beside it. */
  ghost predicate Holds(t: Tables, chain: seq<Block>) {
    && (chain == [] <==> t.tip.None?)
    && (chain != [] ==> t.tip == Some(chain[|chain| - 1].hash) && chain[0].body.previousHash == GENESIS)
    && (forall i :: 0 <= i < |chain| ==> chain[i].hash in t.rows && t.rows[chain[i].hash] == chain[i])
    && (forall i :: 0 < i < |chain| ==> chain[i].body.previousHash == chain[i - 1].hash)
    && GENESIS !in t.rows
  }

  /** What `create_block` and `ensure_chain_initialized` put in front of a new block. */
  function TipOrGenesis(t: Tables): string {
    t.tip.GetOr(GENESIS)
  }

  /** One attempt to extend the chain; the process may die between the two statements. */
  datatype Attempt = Attempt(body: Body, dies: bool)

  function BlockFor(hashOf: Body -> string, t: Tables, a: Attempt): Block {
    var body := a.body.(previousHash := TipOrGenesis(t));
    Block(body, hashOf(body))
  }

  /** A repeated hash violates the primary key and changes nothing. */
  function Store(hashOf: Body -> string, t: Tables, a: Attempt): Tables {
    var b := BlockFor(hashOf, t, a);
    if b.hash in t.rows then t
    else if a.dies then t.(rows := t.rows[b.hash := b])
    else Tables(t.rows[b.hash := b], Some(b.hash))
  }

  /** The tables, and the blocks whose store completed, after a series of attempts. */
  function StoreAll(hashOf: Body -> string, attempts: seq<Attempt>): (Tables, seq<Block>) {
    if attempts == [] then (EMPTY_TABLES, [])
    else
      var (t, done) := StoreAll(hashOf, attempts[..|attempts| - 1]);
      var a := attempts[|attempts| - 1];
      var b := BlockFor(hashOf, t, a);
      (Store(hashOf, t, a), if b.hash in t.rows || a.dies then done else done + [b])
  }

  lemma StoreExtends(hashOf: Body -> string, t: Tables, chain: seq<Block>, a: Attempt)
    requires Holds(t, chain) && hashOf(a.body.(previousHash := TipOrGenesis(t))) != GENESIS
    ensures
      var b := BlockFor(hashOf, t, a);
      Holds(Store(hashOf, t, a), if b.hash in t.rows || a.dies then chain else chain + [b])
  {
    var b := BlockFor(hashOf, t, a);
    if b.hash !in t.rows && !a.dies {
      var longer := chain + [b];
      forall i | 0 < i < |longer| ensures longer[i].body.previousHash == longer[i - 1].hash {
      }
    }
  }

  /** A store that died between its two writes cannot be made good by the same block: the
      second insert meets the primary key and the tip stays where it was. */
  lemma InterruptedStoreCannotRepeat(hashOf: Body -> string, t: Tables, a: Attempt)
    requires BlockFor(hashOf, t, a).hash !in t.rows
    ensures
      var interrupted := Store(hashOf, t, a.(dies := true));
      Store(hashOf, interrupted, a.(dies := false)) == interrupted && interrupted.tip == t.tip
  {
    var interrupted := Store(hashOf, t, a.(dies := true));
    assert BlockFor(hashOf, interrupted, a) == BlockFor(hashOf, t, a);
  }

  /** Main result: after any series of stores, repeated hashes and crashes between the two
      statements, the tables hold exactly the blocks whose store completed, in order. */
  lemma {:induction false} StoredChainSurvives(hashOf: Body -> string, attempts: seq<Attempt>)
    requires forall b: Body :: hashOf(b) != GENESIS
    ensures Holds(StoreAll(hashOf, attempts).0, StoreAll(hashOf, attempts).1)
  {
    if attempts != [] {
      var before := attempts[..|attempts| - 1];
      StoredChainSurvives(hashOf, before);
      StoreExtends(hashOf, StoreAll(hashOf, before).0, StoreAll(hashOf, before).1, attempts[|attempts| - 1]);
    }
  }

  /** The primary key makes the hashes along a held chain distinct, so it cannot loop. */
  lemma HeldHashesDistinct(t: Tables, chain: seq<Block>, i: nat, j: nat)
    requires Holds(t, chain) && i < j < |chain|
    ensures chain[i].hash != chain[j].hash
    decreases i
  {
    assert chain[j].body.previousHash == chain[j - 1].hash && chain[j - 1].hash in t.rows;
    assert i > 0 ==> chain[i].body.previousHash == chain[i - 1].hash;
    if chain[i].hash == chain[j].hash {
      assert chain[i] == t.rows[chain[i].hash] && chain[j] == t.rows[chain[j].hash];
      if i > 0 {
        HeldHashesDistinct(t, chain, i - 1, j - 1);
      }
    }
  }

  function FromEnd(chain: seq<Block>, k: nat): Block
    requires k < |chain|
  {
    chain[|chain| - 1 - k]
  }

  /** Two held chains agree as far as both go back. */
  lemma {:induction false} SameFromEnd(t: Tables, xs: seq<Block>, ys: seq<Block>, k: nat)
    requires Holds(t, xs) && Holds(t, ys) && k < |xs| && k < |ys|
    ensures FromEnd(xs, k) == FromEnd(ys, k)
  {
    if k > 0 {
      SameFromEnd(t, xs, ys, k - 1);
      assert FromEnd(xs, k - 1).body.previousHash == FromEnd(xs, k).hash;
      assert FromEnd(ys, k - 1).body.previousHash == FromEnd(ys, k).hash;
    }
    assert FromEnd(xs, k) == t.rows[FromEnd(xs, k).hash];
    assert FromEnd(ys, k) == t.rows[FromEnd(ys, k).hash];
  }

  lemma NotLonger(t: Tables, xs: seq<Block>, ys: seq<Block>)
    requires Holds(t, xs) && Holds(t, ys) && xs != []
    ensures |ys| <= |xs|
  {
    var k := |xs| - 1;
    assert FromEnd(xs, k).body.previousHash == GENESIS;
    if |xs| < |ys| {
      assert FromEnd(ys, k).body.previousHash == FromEnd(ys, k + 1).hash;
      assert FromEnd(ys, k + 1).hash in t.rows;
      SameFromEnd(t, xs, ys, k);
    }
  }

  /** At most one chain is held, so loading is determined by the tables alone. */
  lemma HeldChainUnique(t: Tables, xs: seq<Block>, ys: seq<Block>)
    requires Holds(t, xs) && Holds(t, ys)
    ensures xs == ys
  {
    if xs != [] {
      NotLonger(t, xs, ys);
      NotLonger(t, ys, xs);
      forall i | 0 <= i < |xs| ensures xs[i] == ys[i] {
        SameFromEnd(t, xs, ys, |xs| - 1 - i);
      }
    }
  }

  /** Following previous hashes from the tip visits exactly `chain`, last block first, and then
      meets the GENESIS marker or a missing row. */
  ghost predicate Leads(t: Tables, chain: seq<Block>) {
    && (t.tip.None? ==> chain == [])
    && (t.tip.Some? ==> if chain == [] then t.tip.value !in t.rows else t.tip.value == chain[|chain| - 1].hash)
    && (forall i :: 0 <= i < |chain| ==> chain[i].hash in t.rows && t.rows[chain[i].hash] == chain[i])
    && (forall i :: 0 < i < |chain| ==>
                      chain[i].body.previousHash == chain[i - 1].hash && chain[i].body.previousHash != GENESIS)
    && (chain != [] ==> chain[0].body.previousHash == GENESIS || chain[0].body.previousHash !in t.rows)
  }

  predicate ReachesGenesis(chain: seq<Block>) {
    chain != [] && chain[0].body.previousHash == GENESIS
  }

  /** A held chain is what the walk visits, and the walk ends well: loading returns it. */
  lemma HeldChainLeads(t: Tables, chain: seq<Block>)
    requires Holds(t, chain)
    ensures Leads(t, chain)
    ensures t.tip.Some? ==> ReachesGenesis(chain)
  {
    forall i | 0 < i < |chain| ensures chain[i].body.previousHash != GENESIS {
      assert chain[i - 1].hash in t.rows;
    }
  }

  /** The database connection. */
  class ChainDb {
    var rows: map<string, Block>
    var tip: Option<string>

    ghost function Contents(): Tables
      reads this
    {
      Tables(rows, tip)
    }

    constructor ()
      ensures Contents() == EMPTY_TABLES
    {
      rows, tip := map[], None;
    }

    /** `store_block_and_update_tip`. */
    method StoreBlockAndUpdateTip(block: Block) returns (r: Result<(), StoreError>)
      modifies this
      ensures r.Success? <==> block.hash !in old(rows)
      ensures r.Success? ==> rows == old(rows)[block.hash := block] && tip == Some(block.hash)
      ensures r.Failure? ==> Contents() == old(Contents())
    {
      if block.hash in rows {
        return Failure(DuplicateHash);
      }
      rows := rows[block.hash := block];
      tip := Some(block.hash);
      return Success(());
    }

    /** `load_chain_blocks`: walks back from the tip, then reverses. The ghost argument names
        the rows the walk visits; the rows hold no cycle, or the walk would not end. */
    method LoadChainBlocks(ghost chain: seq<Block>) returns (r: Result<seq<Block>, StoreError>)
      requires Leads(Contents(), chain)
      ensures r == if tip.Some? && !ReachesGenesis(chain) then Failure(MissingBlock) else Success(chain)
    {
      if tip.None? {
        return Success([]);
      }
      var backwards: seq<Block> := [];
      var current := tip.value;
      ghost var left := |chain|;
      while true
        invariant 0 <= left <= |chain| && |backwards| == |chain| - left
        invariant forall k :: 0 <= k < |backwards| ==> backwards[k] == chain[|chain| - 1 - k]
        invariant left > 0 ==> current == chain[left - 1].hash
        invariant left == 0 ==> current !in rows && !ReachesGenesis(chain)
        decreases left
      {
        if current !in rows {
          return Failure(MissingBlock);
        }
        var block := rows[current];
        backwards := backwards + [block];
        assert block == chain[left - 1];
        left := left - 1;
        if block.body.previousHash == GENESIS {
          break;
        }
        current := block.body.previousHash;
      }
      assert left == 0;
      var forwards := Reversed(backwards);
      ReversedAt(backwards);
      assert forwards == chain;
      return Success(forwards);
    }

    /** `ensure_chain_initialized`: an existing tip must name a stored block; an empty
        database receives the genesis block. If an earlier attempt died after its insert,
        the same genesis block cannot be inserted again and no tip is ever written. */
    method EnsureChainInitialized(genesis: Block) returns (r: Result<(), StoreError>)
      requires genesis.body.previousHash == GENESIS
      modifies this
      ensures old(tip).Some? ==> Contents() == old(Contents()) && (r.Success? <==> old(tip).value in old(rows))
      ensures old(tip).None? ==> (r.Success? <==> genesis.hash !in old(rows))
      ensures old(tip).None? && r.Success? && genesis.hash != GENESIS && GENESIS !in old(rows) ==>
          Holds(Contents(), [genesis])
      ensures r.Failure? ==> Contents() == old(Contents())
    {
      if tip.Some? {
        if tip.value !in rows {
          return Failure(MissingBlock);
        }
        return Success(());
      }
      r := StoreBlockAndUpdateTip(genesis);
    }
  }

  function Reversed<T>(s: seq<T>): seq<T> {
    if s == [] then [] else Reversed(s[1..]) + [s[0]]
  }

  lemma {:induction false} ReversedAt<T>(s: seq<T>)
    ensures |Reversed(s)| == |s|
    ensures forall k :: 0 <= k < |s| ==> Reversed(s)[k] == s[|s| - 1 - k]
  {
    if s != [] {
      ReversedAt(s[1..]);
    }
  }
}
