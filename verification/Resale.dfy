/**
 Runs of the ticket contracts: when a ticket can still move, what becomes of tickets in escrow, where
 the ether goes, and how many tokens a seat can get.
 */
module Resale {
  import opened Collections
  import opened Ethereum
  import opened Tickets

  /**
   The contracts with their history: ether sent with successful buys, refunded and withdrawn, and the seat of
   every token minted.
   */
  datatype World = World(state: State, sent: int, refunded: int, withdrawn: int, seatOf: map<nat, SeatRef>)

  function Succeeds(cfg: Config, w: World, tx: Tx): bool {
    Execute(cfg, w.state, tx).Some?
  }

  function Step(cfg: Config, w: World, tx: Tx): World {
    match Execute(cfg, w.state, tx)
    case None => w
    case Some(t) =>
      match tx
      case TxMint(_, _, seat, _, _) => w.(state := t, seatOf := w.seatOf[w.state.nft.counter := seat])
      case TxBuy(_, id, value, _) =>
        w.(state := t, sent := w.sent + value,
           refunded := w.refunded
             + if id in w.state.market.listings then value - w.state.market.listings[id].price else 0)
      case TxWithdraw(_, payee) => w.(state := t, withdrawn := w.withdrawn + Credit(w.state.market, payee))
      case _ => w.(state := t)
  }

  /** Transactions come from outside: the market contract sends none but those its own code makes. */
  predicate External(cfg: Config, tx: Tx) {
    tx.caller != cfg.market && tx.caller != ZERO_ADDRESS
  }

  ghost predicate IsRun(cfg: Config, ws: seq<World>, txs: seq<Tx>) {
    && |ws| == |txs| + 1
    && forall i :: 0 <= i < |txs| ==> External(cfg, txs[i]) && ws[i + 1] == Step(cfg, ws[i], txs[i])
  }

  // ---- The invariant

  ghost predicate NftInv(cfg: Config, n: Nft) {
    && n.owners.Keys == n.tickets.Keys
    && (forall id :: id in n.owners ==> id < n.counter)
    && (forall id :: id in n.approvals ==> id in n.owners && n.owners[id] != cfg.market)
    && (forall spender :: (cfg.market, spender) !in n.operators)
  }

  /** A listed ticket that still exists is in escrow, and is locked exactly if it was resold before. */
  ghost predicate ListingInv(cfg: Config, s: State, id: nat)
    requires id in s.market.listings
  {
    var l := s.market.listings[id];
    && id < s.nft.counter
    && l.seller != cfg.market && l.seller != ZERO_ADDRESS && l.price > 0
    && (id in s.nft.owners && id in s.nft.tickets ==>
          && s.nft.owners[id] == cfg.market
          && (s.nft.tickets[id].transferred <==> l.seller != s.nft.tickets[id].originalOwner))
  }

  ghost predicate ListingsInv(cfg: Config, s: State) {
    forall id :: id in s.market.listings ==> ListingInv(cfg, s, id)
  }

  ghost predicate StateInv(cfg: Config, s: State) {
    NftInv(cfg, s.nft) && ListingsInv(cfg, s) && s.market.royaltyBps <= BPS
  }

  // ---- Each transaction keeps it

  lemma NftTxKeeps(cfg: Config, s: State, tx: Tx)
    requires StateInv(cfg, s) && External(cfg, tx)
    requires tx.TxMint? || tx.TxCancel? || tx.TxKyc? || tx.TxCeiling? || tx.TxApprove? || tx.TxOperator?
    ensures StateInv(cfg, After(cfg, s, tx))
  {
    var t := After(cfg, s, tx);
    assert NftInv(cfg, t.nft);
    forall id | id in t.market.listings
      ensures ListingInv(cfg, t, id)
    {
      assert ListingInv(cfg, s, id);
    }
  }

  lemma TransferEffect(cfg: Config, n: Nft, spender: Address, from: Address, to: Address, id: nat)
    requires NftInv(cfg, n)
    ensures var r := TransferFrom(n, spender, from, to, id);
            r.Some? ==>
              && id in n.owners && n.owners[id] == from && !n.tickets[id].transferred && IsAuthorized(n, spender, id)
              && (n.tickets[id].kycRequired ==> to in n.kyc) && to != ZERO_ADDRESS
              && r.value.owners == n.owners[id := to] && r.value.counter == n.counter
              && r.value.tickets == n.tickets[id := n.tickets[id].(transferred := from != n.tickets[id].originalOwner)]
              && NftInv(cfg, r.value)
  {
  }

  lemma ListingsFollow(cfg: Config, s: State, t: State, id: nat)
    requires ListingsInv(cfg, s) && t.nft.counter == s.nft.counter
    requires forall k :: k in t.market.listings && k != id ==>
      k in s.market.listings && t.market.listings[k] == s.market.listings[k]
    requires forall k :: k != id ==>
      (k in t.nft.owners <==> k in s.nft.owners) && (k in t.nft.tickets <==> k in s.nft.tickets)
    requires forall k :: k != id && k in s.nft.owners ==> t.nft.owners[k] == s.nft.owners[k]
    requires forall k :: k != id && k in s.nft.tickets ==> t.nft.tickets[k] == s.nft.tickets[k]
    requires id in t.market.listings ==> ListingInv(cfg, t, id)
    ensures ListingsInv(cfg, t)
  {
    forall k | k in t.market.listings
      ensures ListingInv(cfg, t, k)
    {
      if k != id {
        assert ListingInv(cfg, s, k);
      }
    }
  }

  lemma TransferTxKeeps(cfg: Config, s: State, tx: Tx)
    requires StateInv(cfg, s) && External(cfg, tx) && tx.TxTransfer?
    ensures StateInv(cfg, After(cfg, s, tx))
  {
    TransferEffect(cfg, s.nft, tx.caller, tx.from, tx.to, tx.id);
    if Execute(cfg, s, tx).Some? {
      assert tx.id in s.market.listings ==> ListingInv(cfg, s, tx.id);
      assert s.nft.owners[tx.id] != cfg.market;
      ListingsFollow(cfg, s, After(cfg, s, tx), tx.id);
    }
  }

  lemma ListTxKeeps(cfg: Config, s: State, tx: Tx)
    requires StateInv(cfg, s) && External(cfg, tx) && tx.TxList?
    ensures StateInv(cfg, After(cfg, s, tx))
  {
    TransferEffect(cfg, s.nft, cfg.market, tx.caller, cfg.market, tx.id);
    hide TransferFrom;
    if Execute(cfg, s, tx).Some? {
      ListingsFollow(cfg, s, After(cfg, s, tx), tx.id);
    }
  }

  lemma DelistTxKeeps(cfg: Config, s: State, tx: Tx)
    requires StateInv(cfg, s) && External(cfg, tx) && tx.TxDelist?
    ensures StateInv(cfg, After(cfg, s, tx))
  {
    hide TransferFrom;
    if Execute(cfg, s, tx).Some? {
      TransferEffect(cfg, s.nft, cfg.market, cfg.market, s.market.listings[tx.id].seller, tx.id);
      ListingsFollow(cfg, s, After(cfg, s, tx), tx.id);
    }
  }

  lemma BuyTxKeeps(cfg: Config, s: State, tx: Tx)
    requires StateInv(cfg, s) && External(cfg, tx) && tx.TxBuy?
    ensures StateInv(cfg, After(cfg, s, tx))
  {
    hide TransferFrom;
    if Execute(cfg, s, tx).Some? {
      TransferEffect(cfg, s.nft, cfg.market, cfg.market, tx.caller, tx.id);
      ListingsFollow(cfg, s, After(cfg, s, tx), tx.id);
    }
  }

  lemma TxKeeps(cfg: Config, s: State, tx: Tx)
    requires StateInv(cfg, s) && External(cfg, tx)
    ensures StateInv(cfg, After(cfg, s, tx))
  {
    match tx
    case TxTransfer(_, _, _, _) => TransferTxKeeps(cfg, s, tx);
    case TxList(_, _, _) => ListTxKeeps(cfg, s, tx);
    case TxDelist(_, _) => DelistTxKeeps(cfg, s, tx);
    case TxBuy(_, _, _, _) => BuyTxKeeps(cfg, s, tx);
    case TxRoyalty(_, _) => MarketTxKeeps(cfg, s, tx);
    case TxWithdraw(_, _) => MarketTxKeeps(cfg, s, tx);
    case _ => NftTxKeeps(cfg, s, tx);
  }

  lemma MarketTxKeeps(cfg: Config, s: State, tx: Tx)
    requires StateInv(cfg, s) && (tx.TxRoyalty? || tx.TxWithdraw?)
    ensures StateInv(cfg, After(cfg, s, tx))
  {
    var t := After(cfg, s, tx);
    forall id | id in t.market.listings
      ensures ListingInv(cfg, t, id)
    {
      assert ListingInv(cfg, s, id);
    }
  }

  lemma StepState(cfg: Config, w: World, tx: Tx)
    ensures Step(cfg, w, tx).state == After(cfg, w.state, tx)
  {
    hide Execute;
  }

  lemma {:induction false} InvAlways(cfg: Config, ws: seq<World>, txs: seq<Tx>, i: nat)
    requires IsRun(cfg, ws, txs) && i <= |txs| && StateInv(cfg, ws[0].state)
    ensures StateInv(cfg, ws[i].state)
  {
    hide StateInv, Step, After;
    if i > 0 {
      InvAlways(cfg, ws, txs, i - 1);
      TxKeeps(cfg, ws[i - 1].state, txs[i - 1]);
      StepState(cfg, ws[i - 1], txs[i - 1]);
    }
  }

  /** Freshly deployed contracts. */
  const DEPLOYED :=
    World(State(Nft(map[], map[], 0, map[], {}, map[], {}), Market(map[], 1000, map[], 0)), 0, 0, 0, map[])

  lemma DeployedIsSound(cfg: Config)
    ensures StateInv(cfg, DEPLOYED.state) && Capped(DEPLOYED.state) && Books(DEPLOYED) && SeatsInv(DEPLOYED)
  {
    assert StateInv(cfg, DEPLOYED.state) by { hide Books, SeatsInv; }
    assert SeatsInv(DEPLOYED) by { hide Books, StateInv; }
    hide StateInv, SeatsInv;
    var deposits: map<Address, int> := map[];
    assert deposits.Keys == {};
    assert Sum(deposits) == 0;
    assert DEPLOYED.state.market.deposits == deposits;
  }

  // ---- A ticket moves on at most once after it left its original owner

  predicate Locked(s: State, id: nat) {
    id in s.nft.owners && id in s.nft.tickets && s.nft.tickets[id].transferred
  }

  predicate Burned(s: State, id: nat) {
    id < s.nft.counter && id !in s.nft.owners
  }

  /** What a transfer needs and does, when the token exists. */
  lemma TransferMoves(cfg: Config, s: State, tx: Tx, id: nat)
    requires StateInv(cfg, s) && External(cfg, tx) && id in s.nft.owners
    ensures var t := After(cfg, s, tx);
            && (id !in t.nft.owners ==> tx.TxCancel? && Burned(t, id))
            && (id in t.nft.owners ==>
                  && id in t.nft.tickets && id in s.nft.tickets
                  && t.nft.tickets[id].originalOwner == s.nft.tickets[id].originalOwner
                  && (Locked(s, id) ==> Locked(t, id) && t.nft.owners[id] == s.nft.owners[id])
                  && (t.nft.owners[id] != s.nft.owners[id] ==>
                        (Locked(t, id) <==> s.nft.owners[id] != s.nft.tickets[id].originalOwner)))
  {
    hide ListingsInv, IsAuthorized, Royalty;
  }

  lemma BurnedStays(cfg: Config, s: State, tx: Tx, id: nat)
    requires StateInv(cfg, s) && Burned(s, id)
    ensures Burned(After(cfg, s, tx), id)
  {
  }

  lemma {:induction false} BurnedForever(cfg: Config, ws: seq<World>, txs: seq<Tx>, i: nat, j: nat, id: nat)
    requires IsRun(cfg, ws, txs) && StateInv(cfg, ws[0].state) && i <= j <= |txs| && Burned(ws[i].state, id)
    ensures Burned(ws[j].state, id)
    decreases j
  {
    hide StateInv, Step, After, Burned;
    if i < j {
      BurnedForever(cfg, ws, txs, i, j - 1, id);
      InvAlways(cfg, ws, txs, j - 1);
      BurnedStays(cfg, ws[j - 1].state, txs[j - 1], id);
      StepState(cfg, ws[j - 1], txs[j - 1]);
    }
  }

  /** A locked ticket stays with its holder for ever, unless it is burned, and then for good. */
  lemma {:induction false} LockedNeverMoves(cfg: Config, ws: seq<World>, txs: seq<Tx>, i: nat, j: nat, id: nat)
    requires IsRun(cfg, ws, txs) && StateInv(cfg, ws[0].state) && i <= j <= |txs| && Locked(ws[i].state, id)
    ensures Burned(ws[j].state, id)
      || (Locked(ws[j].state, id) && ws[j].state.nft.owners[id] == ws[i].state.nft.owners[id])
    decreases j
  {
    hide StateInv, Step, After;
    if i < j {
      LockedNeverMoves(cfg, ws, txs, i, j - 1, id);
      InvAlways(cfg, ws, txs, j - 1);
      StepState(cfg, ws[j - 1], txs[j - 1]);
      if Burned(ws[j - 1].state, id) {
        BurnedStays(cfg, ws[j - 1].state, txs[j - 1], id);
      } else {
        TransferMoves(cfg, ws[j - 1].state, txs[j - 1], id);
      }
    }
  }

  /**
   Over any run: once a ticket has changed hands from somebody other than its original owner, it never
   changes hands again; it stays where it is or is burned for good.
   */
  lemma ResoldAtMostOnce(cfg: Config, ws: seq<World>, txs: seq<Tx>, i: nat, j: nat, id: nat)
    requires IsRun(cfg, ws, txs) && StateInv(cfg, ws[0].state) && i < j <= |txs|
    requires var s, t := ws[i].state.nft, ws[i + 1].state.nft;
             && id in s.owners && id in t.owners && t.owners[id] != s.owners[id]
             && id in s.tickets && s.owners[id] != s.tickets[id].originalOwner
    ensures Burned(ws[j].state, id)
      || (id in ws[j].state.nft.owners && ws[j].state.nft.owners[id] == ws[i + 1].state.nft.owners[id])
  {
    hide StateInv, Step, After;
    InvAlways(cfg, ws, txs, i);
    StepState(cfg, ws[i], txs[i]);
    TransferMoves(cfg, ws[i].state, txs[i], id);
    LockedNeverMoves(cfg, ws, txs, i + 1, j, id);
  }

  // ---- Escrow

  /** The transaction takes the ticket out of escrow. */
  predicate Frees(cfg: Config, w: World, tx: Tx, id: nat) {
    (tx.TxDelist? || tx.TxBuy?) && tx.id == id && Succeeds(cfg, w, tx)
  }

  lemma FreeingLocks(cfg: Config, w: World, tx: Tx, id: nat)
    requires StateInv(cfg, w.state) && External(cfg, tx) && Frees(cfg, w, tx, id)
    ensures !Locked(w.state, id) && id in w.state.nft.owners && Locked(After(cfg, w.state, tx), id)
  {
    assert ListingInv(cfg, w.state, id);
    var to := if tx.TxBuy? then tx.caller else w.state.market.listings[id].seller;
    TransferEffect(cfg, w.state.nft, cfg.market, cfg.market, to, id);
    hide TransferFrom;
  }

  /** Escrow lets go of each ticket at most once in any run. */
  lemma EscrowFreesOnce(cfg: Config, ws: seq<World>, txs: seq<Tx>, i: nat, j: nat, id: nat)
    requires IsRun(cfg, ws, txs) && StateInv(cfg, ws[0].state) && i < |txs| && j < |txs|
    requires Frees(cfg, ws[i], txs[i], id) && Frees(cfg, ws[j], txs[j], id)
    ensures i == j
  {
    if i < j {
      FreedBefore(cfg, ws, txs, i, j, id);
    } else if j < i {
      FreedBefore(cfg, ws, txs, j, i, id);
    }
  }

  lemma FreedBefore(cfg: Config, ws: seq<World>, txs: seq<Tx>, i: nat, j: nat, id: nat)
    requires IsRun(cfg, ws, txs) && StateInv(cfg, ws[0].state) && i < j < |txs|
    requires Frees(cfg, ws[i], txs[i], id)
    ensures !Frees(cfg, ws[j], txs[j], id)
  {
    hide StateInv, Step, After, Frees;
    InvAlways(cfg, ws, txs, i);
    InvAlways(cfg, ws, txs, j);
    StepState(cfg, ws[i], txs[i]);
    FreeingLocks(cfg, ws[i], txs[i], id);
    LockedNeverMoves(cfg, ws, txs, i + 1, j, id);
    if Frees(cfg, ws[j], txs[j], id) {
      FreeingLocks(cfg, ws[j], txs[j], id);
    }
  }

  /** Exactly which purchases succeed: above all, only those from the original owner. */
  lemma BuySucceedsIff(cfg: Config, s: State, tx: Tx)
    requires StateInv(cfg, s) && External(cfg, tx) && tx.TxBuy? && tx.id in s.market.listings
    ensures var l := s.market.listings[tx.id];
            Execute(cfg, s, tx).Some? <==>
              && tx.id in s.nft.owners
              && l.seller == s.nft.tickets[tx.id].originalOwner
              && (s.nft.tickets[tx.id].kycRequired ==> tx.caller in s.nft.kyc)
              && tx.value >= l.price && (tx.value > l.price ==> tx.accepts)
              && l.price * s.market.royaltyBps <= UINT_MAX
  {
    assert ListingInv(cfg, s, tx.id);
    RoyaltyWithinPrice(s.market, s.market.listings[tx.id].price);
    hide Royalty;
  }

  /** Exactly which delistings succeed. */
  lemma DelistSucceedsIff(cfg: Config, s: State, tx: Tx)
    requires StateInv(cfg, s) && External(cfg, tx) && tx.TxDelist? && tx.id in s.market.listings
    ensures var l := s.market.listings[tx.id];
            Execute(cfg, s, tx).Some? <==>
              && tx.id in s.nft.owners
              && l.seller == s.nft.tickets[tx.id].originalOwner
              && (s.nft.tickets[tx.id].kycRequired ==> l.seller in s.nft.kyc)
              && (tx.caller == l.seller || tx.caller == cfg.marketOwner)
  {
    assert ListingInv(cfg, s, tx.id);
  }

  /** A ticket listed by anyone but its original owner stays in escrow until it is burned. */
  lemma ListedByAnotherStays(cfg: Config, ws: seq<World>, txs: seq<Tx>, i: nat, j: nat, id: nat)
    requires IsRun(cfg, ws, txs) && StateInv(cfg, ws[0].state) && i <= j <= |txs|
    requires var s := ws[i].state;
             && id in s.market.listings && id in s.nft.owners && id in s.nft.tickets
             && s.market.listings[id].seller != s.nft.tickets[id].originalOwner
    ensures Burned(ws[j].state, id) || (id in ws[j].state.nft.owners && ws[j].state.nft.owners[id] == cfg.market)
  {
    InvAlways(cfg, ws, txs, i);
    assert ListingInv(cfg, ws[i].state, id);
    hide StateInv, Step, After;
    LockedNeverMoves(cfg, ws, txs, i, j, id);
  }

  /** From deployment: a ticket changes hands, its new owner lists it, and nobody can buy or delist it. */
  lemma ListedAndStuck(cfg: Config, a: Address, b: Address, c: Address, seat: SeatRef)
    requires a != ZERO_ADDRESS && b != ZERO_ADDRESS && c != ZERO_ADDRESS && cfg.market != ZERO_ADDRESS
    requires a != cfg.market && b != cfg.market && c != cfg.market && a != b && cfg.nftOwner != cfg.market
    ensures var w1 := Step(cfg, DEPLOYED, TxMint(cfg.nftOwner, a, seat, 100, false));
            var w2 := Step(cfg, w1, TxTransfer(a, a, b, 0));
            var w3 := Step(cfg, w2, TxApprove(b, cfg.market, 0));
            var w4 := Step(cfg, w3, TxList(b, 0, 120));
            && 0 in w4.state.market.listings && 0 in w4.state.nft.owners && w4.state.nft.owners[0] == cfg.market
            && !Succeeds(cfg, w4, TxBuy(c, 0, 120, true)) && !Succeeds(cfg, w4, TxDelist(b, 0))
  {
    var w1 := Step(cfg, DEPLOYED, TxMint(cfg.nftOwner, a, seat, 100, false));
    var w2 := Step(cfg, w1, TxTransfer(a, a, b, 0));
    var w3 := Step(cfg, w2, TxApprove(b, cfg.market, 0));
    var ticket := Ticket(seat, 100, 120, false, a, false);
    assert w1.state.nft.owners == map[0 := a] && w1.state.nft.tickets == map[0 := ticket];
    assert w2.state.nft.owners == map[0 := b] && w2.state.nft.tickets == map[0 := ticket];
    assert w3.state.nft.owners == map[0 := b] && w3.state.nft.tickets == map[0 := ticket]
        && w3.state.nft.approvals[0] == cfg.market;
    hide Step, Succeeds;
    ListedByBuyer(cfg, w3, b, c);
  }

  lemma ListedByBuyer(cfg: Config, w: World, b: Address, c: Address)
    requires cfg.market != ZERO_ADDRESS && b != cfg.market
    requires var n := w.state.nft;
             && 0 in n.owners && n.owners[0] == b && 0 in n.tickets && 0 in n.approvals && n.approvals[0] == cfg.market
             && !n.tickets[0].transferred && !n.tickets[0].kycRequired && n.tickets[0].originalOwner != b
             && n.tickets[0].maxResalePrice >= 120
    ensures var t := Step(cfg, w, TxList(b, 0, 120));
            && 0 in t.state.market.listings && 0 in t.state.nft.owners && t.state.nft.owners[0] == cfg.market
            && !Succeeds(cfg, t, TxBuy(c, 0, 120, true)) && !Succeeds(cfg, t, TxDelist(b, 0))
  {
  }

  // ---- The price ceiling

  /** No ticket is on sale above its ceiling. */
  ghost predicate Capped(s: State) {
    forall id :: id in s.market.listings && id in s.nft.tickets
        ==> s.market.listings[id].price <= s.nft.tickets[id].maxResalePrice
  }

  /** The organizer tightens the ceiling of a ticket below the price it is listed at. */
  predicate Undercuts(cfg: Config, s: State, tx: Tx) {
    && tx.TxCeiling? && tx.caller == cfg.nftOwner
    && tx.id in s.nft.owners && tx.id in s.nft.tickets && tx.ceiling >= s.nft.tickets[tx.id].faceValue
    && tx.id in s.market.listings && tx.ceiling < s.market.listings[tx.id].price
  }

  /** What a transaction other than a listing does to listings and ceilings. */
  lemma CeilingsFollow(cfg: Config, s: State, tx: Tx, id: nat)
    requires StateInv(cfg, s) && !tx.TxList? && id in After(cfg, s, tx).market.listings
        && id in After(cfg, s, tx).nft.tickets
    ensures var t := After(cfg, s, tx);
            && id in s.market.listings && id in s.nft.tickets && t.market.listings[id] == s.market.listings[id]
            && t.nft.tickets[id].maxResalePrice
               == if tx.TxCeiling? && tx.id == id && Execute(cfg, s, tx).Some? then tx.ceiling
                  else s.nft.tickets[id].maxResalePrice
  {
    assert id in s.market.listings ==> ListingInv(cfg, s, id);
    hide IsAuthorized, Royalty, ListingsInv, ListingInv;
  }

  lemma ListTxCapped(cfg: Config, s: State, tx: Tx)
    requires StateInv(cfg, s) && Capped(s) && tx.TxList?
    ensures Capped(After(cfg, s, tx))
  {
    hide IsAuthorized, ListingsInv;
  }

  /** A transaction keeps prices within the ceilings if and only if it does not undercut a listing. */
  lemma CappedIff(cfg: Config, s: State, tx: Tx)
    requires StateInv(cfg, s) && Capped(s)
    ensures Capped(After(cfg, s, tx)) <==> !Undercuts(cfg, s, tx)
  {
    if tx.TxList? {
      ListTxCapped(cfg, s, tx);
    } else {
      hide After, StateInv;
      forall id | id in After(cfg, s, tx).market.listings && id in After(cfg, s, tx).nft.tickets
        ensures After(cfg, s, tx).market.listings[id].price <= After(cfg, s, tx).nft.tickets[id].maxResalePrice
            || Undercuts(cfg, s, tx)
      {
        CeilingsFollow(cfg, s, tx, id);
      }
      if Undercuts(cfg, s, tx) {
        TightenedStays(cfg, s, tx);
        CeilingsFollow(cfg, s, tx, tx.id);
      }
    }
  }

  lemma TightenedStays(cfg: Config, s: State, tx: Tx)
    requires Undercuts(cfg, s, tx)
    ensures tx.id in After(cfg, s, tx).market.listings && tx.id in After(cfg, s, tx).nft.tickets
  {
  }

  lemma BoughtExists(cfg: Config, w: World, tx: Tx)
    ensures tx.TxBuy? && Succeeds(cfg, w, tx) ==> tx.id in w.state.market.listings && tx.id in w.state.nft.tickets
  {
  }

  /** In a run without such a transaction prices stay within the ceilings. */
  lemma {:induction false} CappedBefore(cfg: Config, ws: seq<World>, txs: seq<Tx>, i: nat)
    requires IsRun(cfg, ws, txs) && i <= |txs| && StateInv(cfg, ws[0].state) && Capped(ws[0].state)
    requires forall k :: 0 <= k < i ==> !Undercuts(cfg, ws[k].state, txs[k])
    ensures Capped(ws[i].state)
  {
    hide StateInv, Step, After, Capped, Undercuts;
    if i > 0 {
      CappedBefore(cfg, ws, txs, i - 1);
      CappedNext(cfg, ws, txs, i - 1);
    }
  }

  lemma CappedNext(cfg: Config, ws: seq<World>, txs: seq<Tx>, i: nat)
    requires IsRun(cfg, ws, txs) && i < |txs| && StateInv(cfg, ws[0].state) && Capped(ws[i].state)
    ensures Capped(ws[i + 1].state) <==> !Undercuts(cfg, ws[i].state, txs[i])
  {
    hide StateInv, Step, After, Capped, Undercuts;
    InvAlways(cfg, ws, txs, i);
    CappedIff(cfg, ws[i].state, txs[i]);
    StepState(cfg, ws[i], txs[i]);
  }

  /**
   Over any run: prices stay within the ceilings up to a point if and only if no transaction up to it undercut
   a listing.
   */
  lemma CappedExactly(cfg: Config, ws: seq<World>, txs: seq<Tx>, i: nat)
    requires IsRun(cfg, ws, txs) && i <= |txs| && StateInv(cfg, ws[0].state) && Capped(ws[0].state)
    ensures (forall j :: 0 <= j <= i ==> Capped(ws[j].state))
        <==> (forall j :: 0 <= j < i ==> !Undercuts(cfg, ws[j].state, txs[j]))
  {
    assert |ws| == |txs| + 1;
    hide StateInv, Step, IsRun, Capped, Undercuts;
    if forall j :: 0 <= j <= i ==> Capped(ws[j].state) {
      forall j | 0 <= j < i
        ensures !Undercuts(cfg, ws[j].state, txs[j])
      {
        assert Capped(ws[j].state) && Capped(ws[j + 1].state);
        CappedNext(cfg, ws, txs, j);
      }
    }
    if forall j :: 0 <= j < i ==> !Undercuts(cfg, ws[j].state, txs[j]) {
      forall j | 0 <= j <= i
        ensures Capped(ws[j].state)
      {
        CappedBefore(cfg, ws, txs, j);
      }
    }
  }

  /** From deployment: a ticket is listed at its ceiling, the ceiling is tightened, and it is bought above it. */
  lemma BoughtAboveCeiling(cfg: Config, a: Address, c: Address, seat: SeatRef)
    requires a != ZERO_ADDRESS && c != ZERO_ADDRESS && a != cfg.market && c != cfg.market && cfg.market != ZERO_ADDRESS
    requires cfg.nftOwner != cfg.market
    ensures var w1 := Step(cfg, DEPLOYED, TxMint(cfg.nftOwner, a, seat, 100, false));
            var w2 := Step(cfg, w1, TxApprove(a, cfg.market, 0));
            var w3 := Step(cfg, w2, TxList(a, 0, 120));
            var w4 := Step(cfg, w3, TxCeiling(cfg.nftOwner, 0, 100));
            && Succeeds(cfg, w4, TxBuy(c, 0, 120, true))
            && 0 in w4.state.market.listings && w4.state.market.listings[0].price == 120
            && 0 in w4.state.nft.tickets && w4.state.nft.tickets[0].maxResalePrice == 100
  {
  }

  /** So in every run without such a transaction every purchase pays at most the ticket's ceiling. */
  lemma CappedAlways(cfg: Config, ws: seq<World>, txs: seq<Tx>, i: nat)
    requires IsRun(cfg, ws, txs) && i <= |txs| && StateInv(cfg, ws[0].state) && Capped(ws[0].state)
    requires forall k :: 0 <= k < i ==> !Undercuts(cfg, ws[k].state, txs[k])
    ensures Capped(ws[i].state)
    ensures i < |txs| && txs[i].TxBuy? && Succeeds(cfg, ws[i], txs[i]) ==>
      var s, id := ws[i].state, txs[i].id;
      id in s.market.listings && id in s.nft.tickets && s.market.listings[id].price <= s.nft.tickets[id].maxResalePrice
  {
    if i < |txs| { BoughtExists(cfg, ws[i], txs[i]); }
    assert Capped(ws[i].state) by {
      hide StateInv, Step, After, Capped, Undercuts, Succeeds;
      CappedBefore(cfg, ws, txs, i);
    }
    hide StateInv, Step, After, Undercuts, Succeeds;
  }

  // ---- Payments

  lemma RoyaltyWithinPrice(m: Market, price: nat)
    requires m.royaltyBps <= BPS
    ensures Royalty(m, price) <= price
  {
    assert price * m.royaltyBps <= price * BPS;
  }

  /** All ether sent with successful buys is refunded, withdrawn, or still credited and backed by the escrow. */
  ghost predicate Books(w: World) {
    && (forall payee :: payee in w.state.market.deposits ==> w.state.market.deposits[payee] >= 0)
    && w.state.market.escrow == Sum(w.state.market.deposits)
    && w.sent == w.refunded + w.withdrawn + Sum(w.state.market.deposits)
  }

  lemma DepositAdds(m: Market, payee: Address, amount: nat)
    ensures var d := Deposit(m, payee, amount);
            && Sum(d.deposits) == Sum(m.deposits) + amount && d.escrow == m.escrow + amount
            && ((forall p :: p in m.deposits ==> m.deposits[p] >= 0) ==>
                  forall p :: p in d.deposits ==> d.deposits[p] >= 0)
  {
    SumUpdate(m.deposits, payee, Credit(m, payee) + amount);
  }

  lemma BuyKeepsBooks(cfg: Config, w: World, tx: Tx)
    requires StateInv(cfg, w.state) && Books(w) && tx.TxBuy?
    ensures Books(Step(cfg, w, tx))
  {
    hide StateInv, Royalty, Execute, Buy, Deposit;
    if Execute(cfg, w.state, tx).Some? {
      assert w.state.market.royaltyBps <= BPS by { InvRoyalty(cfg, w.state); }
      BuyEffect(cfg, w, tx);
      var m := w.state.market;
      var l := m.listings[tx.id];
      var royalty := Royalty(m, l.price);
      hide Step;
      DepositAdds(m, l.seller, l.price - royalty);
      DepositAdds(Deposit(m, l.seller, l.price - royalty), cfg.marketOwner, royalty);
    }
  }

  lemma InvRoyalty(cfg: Config, s: State)
    requires StateInv(cfg, s)
    ensures s.market.royaltyBps <= BPS
  {
  }

  /** What a successful purchase does to the market and to the record of payments. */
  lemma BuyEffect(cfg: Config, w: World, tx: Tx)
    requires w.state.market.royaltyBps <= BPS && tx.TxBuy? && Execute(cfg, w.state, tx).Some?
    ensures tx.id in w.state.market.listings
    ensures var m := w.state.market;
            var l := m.listings[tx.id];
            var royalty := Royalty(m, l.price);
            var t := Step(cfg, w, tx);
            && royalty <= l.price <= tx.value
            && var paid := Deposit(Deposit(m, l.seller, l.price - royalty), cfg.marketOwner, royalty);
            && t.state.market.deposits == paid.deposits && t.state.market.escrow == paid.escrow
            && t.sent == w.sent + tx.value && t.refunded == w.refunded + tx.value - l.price
                && t.withdrawn == w.withdrawn
  {
    hide TransferFrom, Royalty;
    if tx.id in w.state.market.listings {
      RoyaltyWithinPrice(w.state.market, w.state.market.listings[tx.id].price);
    }
  }

  lemma WithdrawKeepsBooks(cfg: Config, w: World, tx: Tx)
    requires Books(w) && tx.TxWithdraw?
    ensures Books(Step(cfg, w, tx))
  {
    SumUpdate(w.state.market.deposits, tx.payee, 0);
  }

  lemma OthersKeepBooks(cfg: Config, w: World, tx: Tx)
    requires Books(w) && !tx.TxBuy? && !tx.TxWithdraw?
    ensures Books(Step(cfg, w, tx))
  {
    hide TransferFrom, MintTicket, CancelTicket;
  }

  lemma StepKeepsBooks(cfg: Config, w: World, tx: Tx)
    requires StateInv(cfg, w.state) && Books(w)
    ensures Books(Step(cfg, w, tx))
  {
    hide StateInv, Books, Step;
    if tx.TxBuy? {
      BuyKeepsBooks(cfg, w, tx);
    } else if tx.TxWithdraw? {
      WithdrawKeepsBooks(cfg, w, tx);
    } else {
      OthersKeepBooks(cfg, w, tx);
    }
  }

  /** Payments are conserved in every state of every run, and no royalty exceeds its price. */
  lemma {:induction false} PaymentsConserved(cfg: Config, ws: seq<World>, txs: seq<Tx>, i: nat)
    requires IsRun(cfg, ws, txs) && i <= |txs| && StateInv(cfg, ws[0].state) && Books(ws[0])
    ensures Books(ws[i])
    ensures forall price: nat :: Royalty(ws[i].state.market, price) <= price
  {
    if i > 0 {
      PaymentsConserved(cfg, ws, txs, i - 1);
      InvAlways(cfg, ws, txs, i - 1);
      StepKeepsBooks(cfg, ws[i - 1], txs[i - 1]);
    }
    InvAlways(cfg, ws, txs, i);
    forall price: nat
      ensures Royalty(ws[i].state.market, price) <= price
    {
      assert ws[i].state.market.royaltyBps <= BPS;
      RoyaltyWithinPrice(ws[i].state.market, price);
    }
    hide StateInv, Books, Step, Royalty;
  }

  /** A purchase credits exactly its price: the seller's part, and the royalty to the market's owner. */
  lemma BuySplitsPrice(cfg: Config, s: State, tx: Tx, payee: Address)
    requires StateInv(cfg, s) && tx.TxBuy? && Execute(cfg, s, tx).Some?
    ensures var l := s.market.listings[tx.id];
            var royalty := Royalty(s.market, l.price);
            Credit(After(cfg, s, tx).market, payee) - Credit(s.market, payee)
              == (if payee == l.seller then l.price - royalty else 0)
                 + (if payee == cfg.marketOwner then royalty else 0)
    ensures tx.id in After(cfg, s, tx).nft.owners && After(cfg, s, tx).nft.owners[tx.id] == tx.caller
    ensures tx.id !in After(cfg, s, tx).market.listings
  {
    hide Royalty;
  }

  lemma {:induction false} SumAtLeast(m: map<Address, int>, k: Address)
    requires k in m && forall x :: x in m ==> m[x] >= 0
    ensures Sum(m) >= m[k]
  {
    SumRemove(m, k);
    SumNonNegative(m - {k});
  }

  /** So the escrow can always pay: no withdrawal is ever refused for lack of funds. */
  lemma WithdrawalsAlwaysPaid(cfg: Config, w: World, payee: Address)
    requires Books(w)
    ensures WithdrawPayments(w.state, payee).Some?
    ensures Credit(WithdrawPayments(w.state, payee).value.market, payee) == 0
  {
    SumNonNegative(w.state.market.deposits);
    if payee in w.state.market.deposits {
      SumAtLeast(w.state.market.deposits, payee);
    }
  }

  // ---- The tokens of a seat

  ghost predicate SeatsInv(w: World) {
    var n := w.state.nft;
    && (forall id :: id in w.seatOf ==>
         id < n.counter && w.seatOf[id] in n.seatToToken && id <= n.seatToToken[w.seatOf[id]])
    && (forall seat :: seat in n.seatToToken ==>
         n.seatToToken[seat] in w.seatOf && w.seatOf[n.seatToToken[seat]] == seat)
    && (forall a, b :: a in w.seatOf && b in w.seatOf && a < b && w.seatOf[a] == w.seatOf[b] ==> a == 0)
  }

  lemma StepKeepsSeats(cfg: Config, w: World, tx: Tx)
    requires SeatsInv(w)
    ensures SeatsInv(Step(cfg, w, tx))
  {
    if tx.TxMint? {
      MintKeepsSeats(cfg, w, tx);
    } else {
      OnlyMintsTouchSeats(cfg, w, tx);
      hide Step;
    }
  }

  lemma MintKeepsSeats(cfg: Config, w: World, tx: Tx)
    requires SeatsInv(w) && tx.TxMint?
    ensures SeatsInv(Step(cfg, w, tx))
  {
  }

  lemma OnlyMintsTouchSeats(cfg: Config, w: World, tx: Tx)
    requires !tx.TxMint?
    ensures var t := Step(cfg, w, tx);
            && t.seatOf == w.seatOf && t.state.nft.seatToToken == w.state.nft.seatToToken
            && t.state.nft.counter == w.state.nft.counter
  {
    hide BeforeTransfer, IsAuthorized, Royalty;
  }

  /** In every state of every run, two tokens minted for one seat are never both other than token 0. */
  lemma {:induction false} SeatHasOneToken(cfg: Config, ws: seq<World>, txs: seq<Tx>, i: nat)
    requires IsRun(cfg, ws, txs) && i <= |txs| && SeatsInv(ws[0])
    ensures SeatsInv(ws[i])
    ensures forall a, b ::
      a in ws[i].seatOf && b in ws[i].seatOf && a != b && ws[i].seatOf[a] == ws[i].seatOf[b] ==> a == 0 || b == 0
  {
    hide Step;
    if i > 0 {
      SeatHasOneToken(cfg, ws, txs, i - 1);
      StepKeepsSeats(cfg, ws[i - 1], txs[i - 1]);
    }
  }

  // ---- One token for a seat

  ghost predicate OneToken(w: World) {
    forall a, b :: a in w.seatOf && b in w.seatOf && w.seatOf[a] == w.seatOf[b] ==> a == b
  }

  /** A mint that its guards let through, for the seat that has token 0. */
  predicate MintsAgain(cfg: Config, w: World, tx: Tx) {
    && tx.TxMint? && tx.caller == cfg.nftOwner && tx.to != ZERO_ADDRESS && tx.faceValue * 120 <= UINT_MAX
    && tx.seat in w.state.nft.seatToToken && w.state.nft.seatToToken[tx.seat] == 0
  }

  /** A transaction leaves every seat with at most one token if and only if it is no such mint. */
  lemma OneTokenIff(cfg: Config, w: World, tx: Tx)
    requires SeatsInv(w) && OneToken(w)
    ensures OneToken(Step(cfg, w, tx)) <==> !MintsAgain(cfg, w, tx)
  {
    if tx.TxMint? {
      var n, t := w.state.nft, Step(cfg, w, tx);
      assert n.counter !in w.seatOf;
      if MintsAgain(cfg, w, tx) {
        assert 0 in t.seatOf && n.counter in t.seatOf && t.seatOf[0] == t.seatOf[n.counter] == tx.seat;
      }
    } else {
      OnlyMintsTouchSeats(cfg, w, tx);
      hide Step;
    }
  }

  lemma SeatsAreRecorded(cfg: Config, w: World, tx: Tx)
    requires SeatsInv(w)
    ensures forall id :: id in w.seatOf ==> id in Step(cfg, w, tx).seatOf && Step(cfg, w, tx).seatOf[id] == w.seatOf[id]
  {
    if !tx.TxMint? {
      OnlyMintsTouchSeats(cfg, w, tx);
      hide Step;
    }
  }

  lemma FewerTokens(w: World, t: World)
    requires OneToken(t) && forall id :: id in w.seatOf ==> id in t.seatOf && t.seatOf[id] == w.seatOf[id]
    ensures OneToken(w)
  {
  }

  /**
   Over any run every seat has at most one token if and only if no transaction minted again for the seat of
   token 0.
   */
  lemma {:induction false} OneTokenExactly(cfg: Config, ws: seq<World>, txs: seq<Tx>, i: nat)
    requires IsRun(cfg, ws, txs) && i <= |txs| && SeatsInv(ws[0]) && OneToken(ws[0])
    ensures OneToken(ws[i]) <==> forall j :: 0 <= j < i ==> !MintsAgain(cfg, ws[j], txs[j])
  {
    hide Step, SeatsInv, OneToken, MintsAgain;
    if i > 0 {
      OneTokenExactly(cfg, ws, txs, i - 1);
      SeatHasOneToken(cfg, ws, txs, i - 1);
      SeatsAreRecorded(cfg, ws[i - 1], txs[i - 1]);
      if OneToken(ws[i - 1]) {
        OneTokenIff(cfg, ws[i - 1], txs[i - 1]);
      } else if OneToken(ws[i]) {
        FewerTokens(ws[i - 1], ws[i]);
      }
    }
  }

  /** From deployment: the first seat can be minted twice. */
  lemma FirstSeatMintedTwice(cfg: Config, a: Address, seat: SeatRef)
    requires a != ZERO_ADDRESS
    ensures var w1 := Step(cfg, DEPLOYED, TxMint(cfg.nftOwner, a, seat, 100, false));
            var w2 := Step(cfg, w1, TxMint(cfg.nftOwner, a, seat, 100, false));
            OneToken(DEPLOYED) && w2.seatOf == map[0 := seat, 1 := seat] && !OneToken(w2)
  {
    var w2 := Step(cfg, Step(cfg, DEPLOYED, TxMint(cfg.nftOwner, a, seat, 100, false)),
        TxMint(cfg.nftOwner, a, seat, 100, false));
    assert w2.seatOf[0] == w2.seatOf[1];
  }

  /** A valid mint succeeds if and only if no token other than token 0 was ever minted for the seat. */
  lemma MintSucceedsIff(cfg: Config, w: World, to: Address, seat: SeatRef, faceValue: nat, kycRequired: bool)
    requires SeatsInv(w) && to != ZERO_ADDRESS && faceValue * 120 <= UINT_MAX
    ensures MintTicket(cfg, w.state.nft, cfg.nftOwner, to, seat, faceValue, kycRequired).Some?
      <==> forall id :: id in w.seatOf && w.seatOf[id] == seat ==> id == 0
  {
    var n := w.state.nft;
    if TokenOf(n, seat) != 0 {
      assert n.seatToToken[seat] in w.seatOf;
    }
  }
}
