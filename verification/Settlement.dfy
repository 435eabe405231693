/**
 What each transaction of the ticket contracts requires and what it settles: who ends up with the ticket,
 who is credited how much, and that everything it does not name stays as it was.
 */
module Settlement {
  import opened Collections
  import opened Ethereum
  import opened Tickets
  import opened Resale

  // ---- Payments

  /** What a transaction adds to the credit of an account. */
  function Gain(cfg: Config, s: State, tx: Tx, payee: Address): int {
    Credit(After(cfg, s, tx).market, payee) - Credit(s.market, payee)
  }

  /**
   A purchase at `price` credits the market's owner with the royalty rate's share of the price, rounded down, and the
   seller with the rest; nobody else is credited, and the escrow grows by the price.
   */
  lemma PriceIsSplit(cfg: Config, s: State, tx: Tx)
    requires StateInv(cfg, s) && tx.TxBuy? && Execute(cfg, s, tx).Some?
    ensures var l := s.market.listings[tx.id];
            var sellers := Gain(cfg, s, tx, l.seller);
            var owners := Gain(cfg, s, tx, cfg.marketOwner);
            && (l.seller == cfg.marketOwner ==> sellers == l.price)
            && (l.seller != cfg.marketOwner ==>
                  && sellers + owners == l.price && 0 <= owners <= l.price
                  && 10000 * owners <= l.price * s.market.royaltyBps < 10000 * (owners + 1))
            && (forall p :: p != l.seller && p != cfg.marketOwner ==> Gain(cfg, s, tx, p) == 0)
            && After(cfg, s, tx).market.escrow == s.market.escrow + l.price
  {
    var l := s.market.listings[tx.id];
    BuySplitsPrice(cfg, s, tx, l.seller);
    BuySplitsPrice(cfg, s, tx, cfg.marketOwner);
    forall p | p != l.seller && p != cfg.marketOwner
      ensures Gain(cfg, s, tx, p) == 0
    {
      BuySplitsPrice(cfg, s, tx, p);
    }
    InvRoyalty(cfg, s);
    RoyaltyWithinPrice(s.market, l.price);
    BuyEffect(cfg, World(s, 0, 0, 0, map[]), tx);
    hide StateInv, Execute, Credit;
  }

  /** Only purchases and withdrawals touch credits and escrow. */
  lemma OnlyTradesPay(cfg: Config, s: State, tx: Tx)
    requires !tx.TxBuy? && !tx.TxWithdraw?
    ensures var t := After(cfg, s, tx);
            t.market.deposits == s.market.deposits && t.market.escrow == s.market.escrow
  {
    hide TransferFrom, MintTicket, CancelTicket;
  }

  /** A withdrawal takes a credit that the escrow covers out of it, whole, and leaves everything else. */
  lemma WithdrawPays(cfg: Config, s: State, tx: Tx)
    requires tx.TxWithdraw?
    ensures var t := After(cfg, s, tx);
            var credit := Credit(s.market, tx.payee);
            && (Execute(cfg, s, tx).Some? <==> credit <= s.market.escrow)
            && (credit <= s.market.escrow ==>
                  Gain(cfg, s, tx, tx.payee) == -credit && t.market.escrow == s.market.escrow - credit)
            && (forall p :: p != tx.payee ==> Gain(cfg, s, tx, p) == 0)
            && t.nft == s.nft && t.market.listings == s.market.listings && t.market.royaltyBps == s.market.royaltyBps
  {
  }

  // ---- Ownership

  /** Everything about tokens other than `id` is the same. */
  ghost predicate SameBut(n: Nft, m: Nft, id: nat) {
    && n.owners - {id} == m.owners - {id} && n.tickets - {id} == m.tickets - {id}
    && n.approvals - {id} == m.approvals - {id} && n.kyc == m.kyc && n.operators == m.operators
  }

  /** A mint records the ticket under the next number, with a ceiling of 120% of its face value, rounded down. */
  lemma MintRecords(cfg: Config, n: Nft, caller: Address, to: Address, seat: SeatRef, faceValue: nat, kyc: bool)
    requires NftInv(cfg, n)
    ensures var r := MintTicket(cfg, n, caller, to, seat, faceValue, kyc);
            && (r.Some? <==>
                  && caller == cfg.nftOwner && TokenOf(n, seat) == 0 && to != ZERO_ADDRESS
                  && faceValue * 120 <= UINT_MAX)
            && (r.Some? ==>
                  var id, m := n.counter, r.value;
                  && SameBut(n, m, id) && m.counter == id + 1 && id !in m.approvals
                  && id in m.owners && m.owners[id] == to && id in m.tickets
                  && (forall x :: TokenOf(m, x) == if x == seat then id else TokenOf(n, x))
                  && var t := m.tickets[id];
                     && t.seat == seat && t.faceValue == faceValue && t.kycRequired == kyc
                     && t.originalOwner == to && !t.transferred
                     && 100 * t.maxResalePrice <= 120 * faceValue < 100 * (t.maxResalePrice + 1))
  {
  }

  /** The organizer burns an existing ticket; its seat stays taken. */
  lemma CancelBurns(cfg: Config, n: Nft, caller: Address, id: nat)
    ensures var r := CancelTicket(cfg, n, caller, id);
            && (r.Some? <==> caller == cfg.nftOwner && id in n.owners)
            && (r.Some? ==>
                  && SameBut(n, r.value, id)
                  && id !in r.value.owners && id !in r.value.tickets && id !in r.value.approvals
                  && r.value.seatToToken == n.seatToToken && r.value.counter == n.counter)
  {
  }

  /** The registry and the owner set one user's flag, either way; nobody else does. */
  lemma KycIsSet(cfg: Config, n: Nft, caller: Address, user: Address, status: bool)
    ensures var r := SetKyc(cfg, n, caller, user, status);
            && (r.Some? <==> caller == cfg.registry || caller == cfg.nftOwner)
            && (r.Some? ==>
                  && r.value == n.(kyc := r.value.kyc)
                  && forall u :: u in r.value.kyc <==> if u == user then status else u in n.kyc)
  {
  }

  /** The organizer sets an existing ticket's ceiling to anything not below its face value, and nothing else. */
  lemma CeilingIsSet(cfg: Config, n: Nft, caller: Address, id: nat, ceiling: nat)
    requires id in n.owners <==> id in n.tickets
    ensures var r := SetMaxResalePrice(cfg, n, caller, id, ceiling);
            && (r.Some? <==> caller == cfg.nftOwner && id in n.owners && ceiling >= n.tickets[id].faceValue)
            && (r.Some? ==>
                  && r.value == n.(tickets := r.value.tickets) && SameBut(n, r.value, id) && id in r.value.tickets
                  && r.value.tickets[id].maxResalePrice == ceiling
                  && r.value.tickets[id] == n.tickets[id].(maxResalePrice := ceiling))
  {
  }

  /**
   A transfer succeeds for an unlocked ticket moved from its owner by somebody who may, to a receiver who is verified
   if the ticket asks for it. It locks the ticket exactly if the giver is not its original owner, and ends approvals.
   */
  lemma TransferMovesIff(n: Nft, spender: Address, from: Address, to: Address, id: nat)
    requires n.owners.Keys == n.tickets.Keys
    ensures var r := TransferFrom(n, spender, from, to, id);
            && (r.Some? <==>
                  && id in n.owners && n.owners[id] == from && to != ZERO_ADDRESS
                  && (spender == from || (from, spender) in n.operators
                      || (id in n.approvals && n.approvals[id] == spender))
                  && !n.tickets[id].transferred && (n.tickets[id].kycRequired ==> to in n.kyc))
            && (r.Some? ==>
                  && SameBut(n, r.value, id) && r.value.counter == n.counter && r.value.seatToToken == n.seatToToken
                  && id in r.value.owners && r.value.owners[id] == to && id !in r.value.approvals
                  && id in r.value.tickets
                  && r.value.tickets[id] == n.tickets[id].(transferred := from != n.tickets[id].originalOwner))
  {
  }

  /** Owners and their operators approve, and approving is for one ticket. */
  lemma ApprovalIsSet(n: Nft, caller: Address, to: Address, id: nat)
    ensures var r := Approve(n, caller, to, id);
            && (r.Some? <==> id in n.owners && (n.owners[id] == caller || (n.owners[id], caller) in n.operators))
            && (r.Some? ==>
                  && r.value == n.(approvals := r.value.approvals) && SameBut(n, r.value, id)
                  && forall x :: IsAuthorized(r.value, x, id) <==>
                       x == to || x == n.owners[id] || (n.owners[id], x) in n.operators)
  {
  }

  /** An operator is for all tickets of the caller, and for nobody else's. */
  lemma OperatorIsSet(n: Nft, caller: Address, operator: Address, on: bool)
    ensures var r := SetApprovalForAll(n, caller, operator, on);
            && r.Some? && r.value == n.(operators := r.value.operators)
            && forall a, b :: (a, b) in r.value.operators <==>
                 if a == caller && b == operator then on else (a, b) in n.operators
  {
  }

  // ---- The market

  /** Everything about listings other than that of `id`, credits and rate is the same. */
  ghost predicate SameMarketBut(m: Market, k: Market, id: nat) {
    m.listings - {id} == k.listings - {id} && m.royaltyBps == k.royaltyBps
  }

  /**
   Exactly which listings succeed: the owner's, at a price above 0 and within the ceiling, of an unlocked ticket that
   the market may move and hold. The market then holds the ticket, and offers it for the owner at the price.
   */
  lemma ListSucceedsIff(cfg: Config, s: State, tx: Tx)
    requires StateInv(cfg, s) && External(cfg, tx) && tx.TxList? && cfg.market != ZERO_ADDRESS
    ensures var n, id := s.nft, tx.id;
            Execute(cfg, s, tx).Some? <==>
              && id in n.owners && n.owners[id] == tx.caller && 0 < tx.price <= n.tickets[id].maxResalePrice
              && ((tx.caller, cfg.market) in n.operators || (id in n.approvals && n.approvals[id] == cfg.market))
              && !n.tickets[id].transferred && (n.tickets[id].kycRequired ==> cfg.market in n.kyc)
    ensures Execute(cfg, s, tx).Some? ==>
              var t := After(cfg, s, tx);
              && SameBut(s.nft, t.nft, tx.id) && SameMarketBut(s.market, t.market, tx.id)
              && tx.id in t.nft.owners && t.nft.owners[tx.id] == cfg.market
              && tx.id in t.market.listings && t.market.listings[tx.id] == Listing(tx.caller, tx.price)
  {
    TransferMovesIff(s.nft, cfg.market, tx.caller, cfg.market, tx.id);
    hide TransferFrom, SameBut, ListingsInv;
  }

  /** A delisting hands the ticket back to its seller and ends the listing. */
  lemma DelistReturns(cfg: Config, s: State, tx: Tx)
    requires StateInv(cfg, s) && tx.TxDelist? && Execute(cfg, s, tx).Some?
    ensures tx.id in s.market.listings
    ensures var l, t := s.market.listings[tx.id], After(cfg, s, tx);
            && (tx.caller == l.seller || tx.caller == cfg.marketOwner)
            && SameBut(s.nft, t.nft, tx.id) && SameMarketBut(s.market, t.market, tx.id)
            && tx.id in t.nft.owners && t.nft.owners[tx.id] == l.seller && tx.id !in t.market.listings
  {
    if tx.id in s.market.listings {
      TransferMovesIff(s.nft, cfg.market, cfg.market, s.market.listings[tx.id].seller, tx.id);
    }
    hide TransferFrom, SameBut, ListingsInv;
  }

  /** A purchase hands the ticket to the buyer and ends the listing. */
  lemma BuyDelivers(cfg: Config, s: State, tx: Tx)
    requires StateInv(cfg, s) && tx.TxBuy? && Execute(cfg, s, tx).Some?
    ensures var t := After(cfg, s, tx);
            && SameBut(s.nft, t.nft, tx.id) && SameMarketBut(s.market, t.market, tx.id)
            && tx.id in t.nft.owners && t.nft.owners[tx.id] == tx.caller && tx.id !in t.market.listings
  {
    TransferMovesIff(s.nft, cfg.market, cfg.market, tx.caller, tx.id);
    hide TransferFrom, SameBut, ListingsInv, Royalty;
  }

  /** The rate changes only by its owner's transaction, to the rate named, which is at most all of the price. */
  lemma RateIsSet(cfg: Config, s: State, tx: Tx)
    ensures var t := After(cfg, s, tx);
            && (tx.TxRoyalty? ==> (Execute(cfg, s, tx).Some? <==> tx.caller == cfg.marketOwner && tx.bps <= 10000))
            && t.market.royaltyBps
                 == (if tx.TxRoyalty? && tx.caller == cfg.marketOwner && tx.bps <= 10000 then tx.bps
                     else s.market.royaltyBps)
            && (tx.TxRoyalty? ==> t.nft == s.nft && t.market == s.market.(royaltyBps := t.market.royaltyBps))
  {
    hide TransferFrom, MintTicket, CancelTicket, Royalty;
  }
}
