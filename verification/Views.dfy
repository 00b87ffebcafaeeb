/** Stacked views of the coin database. A cache copies what it reads from the view below
    and keeps what is written; only a flush hands its contents down. The bottom view is
    the database itself, which never stores pruned records and cuts negative versions.
    (src/main.cpp, CCoinsViewCache lines 193-257; src/txdb.cpp, BatchWriteCoins) */
module Views {
  import opened Basics
  import opened Coins
  import opened Blocks

  class CoinsView {
    const base: CoinsView?                  // null for the database
    var cacheCoins: CoinMap
    var tip: Option<Hash>
    ghost const Repr: set<object>

    ghost predicate Valid()
      reads this, Repr
      decreases Repr
    {
      && this in Repr
      && (base != null ==> base in Repr && base.Repr <= Repr && this !in base.Repr && base.Valid())
    }

    /** What a reader of this view sees. */
    ghost function Contents(): CoinMap
      requires Valid()
      reads Repr
      decreases Repr
    {
      if base == null then cacheCoins else base.Contents() + cacheCoins
    }

    ghost function Best(): Option<Hash>
      requires Valid()
      reads Repr
      decreases Repr
    {
      if base == null || tip.Some? then tip else base.Best()
    }

    ghost function BaseContents(): CoinMap
      requires Valid()
      reads Repr
    {
      if base == null then map[] else base.Contents()
    }

    ghost function BaseBest(): Option<Hash>
      requires Valid()
      reads Repr
    {
      if base == null then None else base.Best()
    }

    constructor Database()
      ensures Valid() && fresh(Repr) && base == null
      ensures Contents() == map[] && Best() == None
    {
      base := null;
      cacheCoins := map[];
      tip := None;
      Repr := {this};
    }

    constructor Cache(below: CoinsView)
      requires below.Valid()
      ensures Valid() && base == below && Repr == below.Repr + {this} && fresh(this)
      ensures Contents() == below.Contents() && Best() == below.Best()
      ensures BaseContents() == below.Contents() && BaseBest() == below.Best()
    {
      base := below;
      cacheCoins := map[];
      tip := None;
      Repr := below.Repr + {this};
      new;
      assert base.Contents() + map[] == base.Contents();
    }

    /** GetCoins with a result flag: what is found below is copied into this cache. */
    method GetCoins(txid: Hash) returns (found: bool, coins: CoinRecord)
      requires Valid()
      modifies Repr
      ensures Valid() && Contents() == old(Contents()) && Best() == old(Best())
      ensures BaseContents() == old(BaseContents()) && BaseBest() == old(BaseBest())
      ensures tip == old(tip)
      ensures found <==> txid in Contents()
      ensures coins == Found(Contents(), txid)
      decreases Repr
    {
      coins := EMPTY_RECORD;
      if txid in cacheCoins {
        return true, cacheCoins[txid];
      }
      if base == null {
        return false, coins;
      }
      found, coins := base.GetCoins(txid);
      if found {
        cacheCoins := cacheCoins[txid := coins];
        assert Contents() == old(Contents());
      }
    }

    method HaveCoins(txid: Hash) returns (found: bool)
      requires Valid()
      modifies Repr
      ensures Valid() && Contents() == old(Contents()) && Best() == old(Best())
      ensures BaseContents() == old(BaseContents()) && BaseBest() == old(BaseBest())
      ensures tip == old(tip)
      ensures found <==> txid in Contents()
    {
      var coins;
      found, coins := GetCoins(txid);
    }

    /** A cache takes the record as it is; the database writes or erases it. */
    method SetCoins(txid: Hash, coins: CoinRecord)
      requires Valid()
      modifies this
      ensures Valid() && Best() == old(Best())
      ensures Contents() == if base != null then old(Contents())[txid := coins]
                            else Written(old(Contents()), map[txid := coins])
      ensures tip == old(tip)
      ensures BaseContents() == old(BaseContents()) && BaseBest() == old(BaseBest())
    {
      cacheCoins := if base != null then cacheCoins[txid := coins] else Written(cacheCoins, map[txid := coins]);
    }

    method GetBestBlock() returns (best: Option<Hash>)
      requires Valid()
      modifies Repr
      ensures Valid() && Contents() == old(Contents()) && Best() == old(Best())
      ensures BaseContents() == old(BaseContents()) && BaseBest() == old(BaseBest())
      ensures best == Best() && tip == best
      decreases Repr
    {
      if tip.None? && base != null {
        tip := base.GetBestBlock();
      }
      best := tip;
    }

    method SetBestBlock(h: Hash)
      requires Valid()
      modifies this
      ensures Valid() && Contents() == old(Contents()) && Best() == Some(h) && tip.Some?
      ensures BaseContents() == old(BaseContents()) && BaseBest() == old(BaseBest())
    {
      tip := Some(h);
    }

    /** Takes over the entries of a cache above; the database drops pruned ones and keeps
        the others in their stored form. */
    method BatchWrite(coins: CoinMap, best: Option<Hash>)
      requires Valid() && best.Some?
      modifies this
      ensures Valid() && Best() == best && tip == best
      ensures base != null ==> Contents() == old(Contents()) + coins
      ensures base == null ==> Contents() == Written(old(Contents()), coins)
      ensures Faded(old(Contents()) + coins, Contents())
      ensures Tidy(old(Contents()) + coins) ==> Tidy(Contents())
      ensures BaseContents() == old(BaseContents()) && BaseBest() == old(BaseBest())
    {
      hide Faded, Tidy, Written;
      ghost var before := Contents();
      FadedInStorage(before, coins);
      if base == null {
        cacheCoins := Written(cacheCoins, coins);
        tip := best;
      } else {
        cacheCoins := cacheCoins + coins;
        tip := best;
        assert base.Contents() + cacheCoins == before + coins;
      }
    }

    /** Hands everything to the view below. What this view shows stays the same, up to the
        pruned records and negative versions the database drops, and the view below now
        shows it too. */
    method Flush()
      requires Valid() && base != null && tip.Some?
      modifies Repr
      ensures Valid() && Best() == old(Best())
      ensures base.Best() == old(Best()) && base.Contents() == Contents() && base.tip.Some?
      ensures Faded(old(Contents()), Contents())
      ensures base.base != null ==> Contents() == old(Contents())
      ensures Tidy(old(Contents())) ==> Tidy(Contents())
    {
      hide Faded, Tidy;
      base.BatchWrite(cacheCoins, tip);
      cacheCoins := map[];
      assert base.Contents() + map[] == base.Contents();
    }
  }

  /** The database after a batch: pruned records are erased, others written. */
  function Written(db: CoinMap, coins: CoinMap): CoinMap {
    map t | t in db.Keys + coins.Keys && (t in coins ==> !coins[t].IsPruned()) ::
      if t in coins then StoredRecord(coins[t]) else db[t]
  }

  lemma FadedInStorage(db: CoinMap, coins: CoinMap)
    ensures Faded(db + coins, db + coins)
    ensures Faded(db + coins, Written(db, coins))
    ensures Tidy(db + coins) ==> Tidy(Written(db, coins))
  {
    var u, v := db + coins, Written(db, coins);
    forall t ensures Live(u, t) == Live(v, t) && (Live(u, t) ==> FadedRecord(u[t], v[t])) {
    }
  }
}
