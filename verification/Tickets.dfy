/**
 The ticket NFT and its secondary market as one transaction system. A transaction that reverts
 leaves everything as it was. The transfer hook runs before every change of ownership.
 */
module Tickets {
  import opened Collections
  import opened Ethereum

  // ---- The NFT

  /** keccak256(abi.encode(eventId, seatNumber)) is taken to be injective, so a seat key is the pair. */
  datatype SeatRef = SeatRef(event: nat, number: nat)

  datatype Ticket = Ticket(
    seat: SeatRef,
    faceValue: nat,
    maxResalePrice: nat,
    kycRequired: bool,
    originalOwner: Address,
    transferred: bool)

  datatype Nft = Nft(
    owners: map<nat, Address>,
    tickets: map<nat, Ticket>,
    counter: nat,
    seatToToken: map<SeatRef, nat>,
    kyc: set<Address>,
    approvals: map<nat, Address>,
    operators: set<(Address, Address)>)

  /** The accounts with special rights. */
  datatype Config = Config(nftOwner: Address, registry: Address, market: Address, marketOwner: Address)

  function TokenOf(nft: Nft, seat: SeatRef): nat {
    if seat in nft.seatToToken then nft.seatToToken[seat] else 0
  }

  function MintTicket(cfg: Config, nft: Nft, caller: Address, to: Address, seat: SeatRef, faceValue: nat,
      kycRequired: bool): Option<Nft> {
    if caller != cfg.nftOwner then None
    else if TokenOf(nft, seat) != 0 then None
    else if to == ZERO_ADDRESS || faceValue * 120 > UINT_MAX then None
    else
      var id := nft.counter;
      Some(nft.(counter := id + 1,
                owners := nft.owners[id := to],
                tickets := nft.tickets[id := Ticket(seat, faceValue, faceValue * 120 / 100, kycRequired, to, false)],
                seatToToken := nft.seatToToken[seat := id]))
  }

  function CancelTicket(cfg: Config, nft: Nft, caller: Address, id: nat): Option<Nft> {
    if caller != cfg.nftOwner then None
    else if id !in nft.owners then None
    else Some(nft.(owners := nft.owners - {id}, tickets := nft.tickets - {id}, approvals := nft.approvals - {id}))
  }

  function SetKyc(cfg: Config, nft: Nft, caller: Address, user: Address, status: bool): Option<Nft> {
    if caller != cfg.registry && caller != cfg.nftOwner then None
    else Some(nft.(kyc := if status then nft.kyc + {user} else nft.kyc - {user}))
  }

  function SetMaxResalePrice(cfg: Config, nft: Nft, caller: Address, id: nat, ceiling: nat): Option<Nft> {
    if caller != cfg.nftOwner then None
    else if id !in nft.owners || id !in nft.tickets then None
    else if ceiling < nft.tickets[id].faceValue then None
    else Some(nft.(tickets := nft.tickets[id := nft.tickets[id].(maxResalePrice := ceiling)]))
  }

  predicate IsAuthorized(nft: Nft, spender: Address, id: nat)
    requires id in nft.owners
  {
    || nft.owners[id] == spender
    || (nft.owners[id], spender) in nft.operators
    || (id in nft.approvals && nft.approvals[id] == spender)
  }

  function Approve(nft: Nft, caller: Address, to: Address, id: nat): Option<Nft> {
    if id !in nft.owners then None
    else if nft.owners[id] != caller && (nft.owners[id], caller) !in nft.operators then None
    else Some(nft.(approvals := nft.approvals[id := to]))
  }

  function SetApprovalForAll(nft: Nft, caller: Address, operator: Address, on: bool): Option<Nft> {
    Some(nft.(operators := if on then nft.operators + {(caller, operator)} else nft.operators - {(caller, operator)}))
  }

  /** What the hook makes of a ticket that moves from one holder to another; None is a revert. */
  function BeforeTransfer(nft: Nft, ticket: Ticket, from: Address, to: Address): Option<Ticket> {
    if ticket.transferred then None
    else if ticket.kycRequired && to !in nft.kyc then None
    else if from != ticket.originalOwner then Some(ticket.(transferred := true))
    else Some(ticket)
  }

  function TransferFrom(nft: Nft, spender: Address, from: Address, to: Address, id: nat): Option<Nft> {
    if id !in nft.owners || id !in nft.tickets then None
    else if !IsAuthorized(nft, spender, id) || nft.owners[id] != from || to == ZERO_ADDRESS then None
    else
      match BeforeTransfer(nft, nft.tickets[id], from, to)
      case None => None
      case Some(ticket) =>
        Some(nft.(owners := nft.owners[id := to], tickets := nft.tickets[id := ticket],
            approvals := nft.approvals - {id}))
  }

  // ---- The market

  const BPS := 10000

  datatype Listing = Listing(seller: Address, price: nat)

  /** `deposits` and `escrow` are the payments pulled by their payees and the ether that backs them. */
  datatype Market = Market(listings: map<nat, Listing>, royaltyBps: nat, deposits: map<Address, int>, escrow: int)

  function Deposit(m: Market, payee: Address, amount: nat): Market {
    m.(deposits := m.deposits[payee := Credit(m, payee) + amount], escrow := m.escrow + amount)
  }

  function Credit(m: Market, payee: Address): int {
    if payee in m.deposits then m.deposits[payee] else 0
  }

  datatype State = State(nft: Nft, market: Market)

  function List(cfg: Config, s: State, caller: Address, id: nat, price: nat): Option<State> {
    if price == 0 then None
    else if id !in s.nft.owners || id !in s.nft.tickets || s.nft.owners[id] != caller then None
    else if price > s.nft.tickets[id].maxResalePrice then None
    else
      match TransferFrom(s.nft, cfg.market, caller, cfg.market, id)
      case None => None
      case Some(nft) => Some(State(nft, s.market.(listings := s.market.listings[id := Listing(caller, price)])))
  }

  function Delist(cfg: Config, s: State, caller: Address, id: nat): Option<State> {
    if id !in s.market.listings then None
    else
      var l := s.market.listings[id];
      if l.seller != caller && caller != cfg.marketOwner then None
      else
        match TransferFrom(s.nft, cfg.market, cfg.market, l.seller, id)
        case None => None
        case Some(nft) => Some(State(nft, s.market.(listings := s.market.listings - {id})))
  }

  function Royalty(m: Market, price: nat): nat {
    price * m.royaltyBps / BPS
  }

  /** `accepts` says whether the caller takes a refund sent to it. */
  function Buy(cfg: Config, s: State, caller: Address, id: nat, value: nat, accepts: bool): Option<State> {
    if id !in s.market.listings then None
    else
      var l := s.market.listings[id];
      if value < l.price || l.price * s.market.royaltyBps > UINT_MAX || Royalty(s.market, l.price) > l.price then None
      else
        var royalty := Royalty(s.market, l.price);
        var paid := Deposit(Deposit(s.market, l.seller, l.price - royalty), cfg.marketOwner, royalty);
        match TransferFrom(s.nft, cfg.market, cfg.market, caller, id)
        case None => None
        case Some(nft) =>
          if value > l.price && !accepts then None
          else Some(State(nft, paid.(listings := paid.listings - {id})))
  }

  function SetRoyalty(cfg: Config, s: State, caller: Address, bps: nat): Option<State> {
    if caller != cfg.marketOwner || bps > BPS then None
    else Some(s.(market := s.market.(royaltyBps := bps)))
  }

  function WithdrawPayments(s: State, payee: Address): Option<State> {
    var amount := Credit(s.market, payee);
    if amount > s.market.escrow then None
    else Some(s.(market := s.market.(deposits := s.market.deposits[payee := 0], escrow := s.market.escrow - amount)))
  }

  // ---- Transactions

  datatype Tx =
    | TxMint(caller: Address, to: Address, seat: SeatRef, faceValue: nat, kycRequired: bool)
    | TxCancel(caller: Address, id: nat)
    | TxKyc(caller: Address, user: Address, status: bool)
    | TxCeiling(caller: Address, id: nat, ceiling: nat)
    | TxApprove(caller: Address, to: Address, id: nat)
    | TxOperator(caller: Address, operator: Address, on: bool)
    | TxTransfer(caller: Address, from: Address, to: Address, id: nat)
    | TxList(caller: Address, id: nat, price: nat)
    | TxDelist(caller: Address, id: nat)
    | TxBuy(caller: Address, id: nat, value: nat, accepts: bool)
    | TxRoyalty(caller: Address, bps: nat)
    | TxWithdraw(caller: Address, payee: Address)

  function OnNft(s: State, r: Option<Nft>): Option<State> {
    match r
    case None => None
    case Some(nft) => Some(s.(nft := nft))
  }

  /** The state after a transaction, or None when it reverts. */
  function Execute(cfg: Config, s: State, tx: Tx): Option<State> {
    match tx
    case TxMint(caller, to, seat, faceValue, kycRequired) =>
      OnNft(s, MintTicket(cfg, s.nft, caller, to, seat, faceValue, kycRequired))
    case TxCancel(caller, id) => OnNft(s, CancelTicket(cfg, s.nft, caller, id))
    case TxKyc(caller, user, status) => OnNft(s, SetKyc(cfg, s.nft, caller, user, status))
    case TxCeiling(caller, id, ceiling) => OnNft(s, SetMaxResalePrice(cfg, s.nft, caller, id, ceiling))
    case TxApprove(caller, to, id) => OnNft(s, Approve(s.nft, caller, to, id))
    case TxOperator(caller, operator, on) => OnNft(s, SetApprovalForAll(s.nft, caller, operator, on))
    case TxTransfer(caller, from, to, id) => OnNft(s, TransferFrom(s.nft, caller, from, to, id))
    case TxList(caller, id, price) => List(cfg, s, caller, id, price)
    case TxDelist(caller, id) => Delist(cfg, s, caller, id)
    case TxBuy(caller, id, value, accepts) => Buy(cfg, s, caller, id, value, accepts)
    case TxRoyalty(caller, bps) => SetRoyalty(cfg, s, caller, bps)
    case TxWithdraw(_, payee) => WithdrawPayments(s, payee)
  }

  function After(cfg: Config, s: State, tx: Tx): State {
    match Execute(cfg, s, tx)
    case None => s
    case Some(t) => t
  }

  // ---- The contracts

  class TicketNFT {
    const config: Config
    var owners: map<nat, Address>
    var tickets: map<nat, Ticket>
    var tokenIdCounter: nat
    var seatToToken: map<SeatRef, nat>
    var isKYCVerified: set<Address>
    var approvals: map<nat, Address>
    var operators: set<(Address, Address)>

    constructor (config: Config)
      ensures this.config == config && View() == Nft(map[], map[], 0, map[], {}, map[], {})
    {
      this.config := config;
      owners, tickets, tokenIdCounter, seatToToken := map[], map[], 0, map[];
      isKYCVerified, approvals, operators := {}, map[], {};
    }

    ghost function View(): Nft
      reads this
    {
      Nft(owners, tickets, tokenIdCounter, seatToToken, isKYCVerified, approvals, operators)
    }

    method Mint(caller: Address, to: Address, seat: SeatRef, faceValue: nat, kycRequired: bool)
      returns (tokenId: Option<nat>)
      modifies this
      ensures var r := MintTicket(config, old(View()), caller, to, seat, faceValue, kycRequired);
              View() == (if r.Some? then r.value else old(View()))
                  && tokenId == if r.Some? then Some(old(tokenIdCounter)) else None
    {
      if caller != config.nftOwner { return None; }
      if seat in seatToToken && seatToToken[seat] != 0 { return None; }
      if to == ZERO_ADDRESS || faceValue * 120 > UINT_MAX { return None; }
      var id := tokenIdCounter;
      tokenIdCounter := tokenIdCounter + 1;
      owners := owners[id := to];
      tickets := tickets[id := Ticket(seat, faceValue, faceValue * 120 / 100, kycRequired, to, false)];
      seatToToken := seatToToken[seat := id];
      return Some(id);
    }

    method Cancel(caller: Address, id: nat) returns (ok: bool)
      modifies this
      ensures var r := CancelTicket(config, old(View()), caller, id);
              ok == r.Some? && View() == if ok then r.value else old(View())
    {
      if caller != config.nftOwner || id !in owners { return false; }
      owners := owners - {id};
      approvals := approvals - {id};
      tickets := tickets - {id};
      return true;
    }

    method SetKYCVerified(caller: Address, user: Address, status: bool) returns (ok: bool)
      modifies this
      ensures var r := SetKyc(config, old(View()), caller, user, status);
              ok == r.Some? && View() == if ok then r.value else old(View())
    {
      if caller != config.registry && caller != config.nftOwner { return false; }
      isKYCVerified := if status then isKYCVerified + {user} else isKYCVerified - {user};
      return true;
    }

    method SetCeiling(caller: Address, id: nat, ceiling: nat) returns (ok: bool)
      modifies this
      ensures var r := SetMaxResalePrice(config, old(View()), caller, id, ceiling);
              ok == r.Some? && View() == if ok then r.value else old(View())
    {
      if caller != config.nftOwner || id !in owners || id !in tickets { return false; }
      if ceiling < tickets[id].faceValue { return false; }
      tickets := tickets[id := tickets[id].(maxResalePrice := ceiling)];
      return true;
    }

    method BeforeTokenTransfer(from: Address, to: Address, id: nat) returns (ok: bool)
      requires id in tickets
      modifies this`tickets
      ensures var r := BeforeTransfer(old(View()), old(tickets[id]), from, to);
              ok == r.Some? && tickets == if ok then old(tickets)[id := r.value] else old(tickets)
    {
      if tickets[id].transferred { return false; }
      if tickets[id].kycRequired && to !in isKYCVerified { return false; }
      if from != tickets[id].originalOwner {
        tickets := tickets[id := tickets[id].(transferred := true)];
      }
      assert tickets == old(tickets)[id := tickets[id]];
      return true;
    }

    method Transfer(spender: Address, from: Address, to: Address, id: nat) returns (ok: bool)
      modifies this
      ensures var r := TransferFrom(old(View()), spender, from, to, id);
              ok == r.Some? && View() == if ok then r.value else old(View())
    {
      if id !in owners || id !in tickets { return false; }
      var owner := owners[id];
      var authorized := owner == spender || (owner, spender) in operators
          || (id in approvals && approvals[id] == spender);
      if !authorized || owner != from || to == ZERO_ADDRESS { return false; }
      ok := BeforeTokenTransfer(from, to, id);
      if !ok { return false; }
      owners := owners[id := to];
      approvals := approvals - {id};
    }
  }

  class TicketMarketplace {
    const config: Config
    const ticketNFT: TicketNFT
    var listings: map<nat, Listing>
    var organizerRoyaltyBps: nat
    var deposits: map<Address, int>
    var escrow: int

    constructor (config: Config, nft: TicketNFT)
      ensures this.config == config && this.ticketNFT == nft && View() == Market(map[], 1000, map[], 0)
    {
      this.config, this.ticketNFT := config, nft;
      listings, organizerRoyaltyBps, deposits, escrow := map[], 1000, map[], 0;
    }

    ghost function View(): Market
      reads this
    {
      Market(listings, organizerRoyaltyBps, deposits, escrow)
    }

    ghost function Both(): State
      reads this, ticketNFT
    {
      State(ticketNFT.View(), View())
    }

    method ListForSale(caller: Address, id: nat, price: nat) returns (ok: bool)
      modifies this, ticketNFT
      ensures var r := List(config, old(Both()), caller, id, price);
              ok == r.Some? && Both() == if ok then r.value else old(Both())
    {
      if price == 0 || id !in ticketNFT.owners || id !in ticketNFT.tickets { return false; }
      var owner := ticketNFT.owners[id];
      if owner != caller { return false; }
      var ceiling := ticketNFT.tickets[id].maxResalePrice;
      if price > ceiling { return false; }
      ok := ticketNFT.Transfer(config.market, owner, config.market, id);
      if ok {
        listings := listings[id := Listing(caller, price)];
      }
    }

    method Unlist(caller: Address, id: nat) returns (ok: bool)
      modifies this, ticketNFT
      ensures var r := Delist(config, old(Both()), caller, id);
              ok == r.Some? && Both() == if ok then r.value else old(Both())
    {
      if id !in listings { return false; }
      var l := listings[id];
      if l.seller != caller && caller != config.marketOwner { return false; }
      ok := ticketNFT.Transfer(config.market, config.market, l.seller, id);
      if ok {
        listings := listings - {id};
      }
    }

    method AsyncTransfer(payee: Address, amount: nat)
      modifies this`deposits, this`escrow
      ensures View() == Deposit(old(View()), payee, amount) && listings == old(listings)
    {
      deposits := deposits[payee := (if payee in deposits then deposits[payee] else 0) + amount];
      escrow := escrow + amount;
    }

    /** A revert after the payments undoes them, so what can still revert is asked first. */
    method Purchase(caller: Address, id: nat, value: nat, accepts: bool) returns (ok: bool)
      modifies this, ticketNFT
      ensures var r := Buy(config, old(Both()), caller, id, value, accepts);
              ok == r.Some? && Both() == if ok then r.value else old(Both())
    {
      hide TransferFrom, Deposit;
      if id !in listings { return false; }
      var l := listings[id];
      if value < l.price || l.price * organizerRoyaltyBps > UINT_MAX { return false; }
      var royalty := l.price * organizerRoyaltyBps / BPS;
      if royalty > l.price || (value > l.price && !accepts) { return false; }
      ok := ticketNFT.Transfer(config.market, config.market, caller, id);
      if ok {
        AsyncTransfer(l.seller, l.price - royalty);
        AsyncTransfer(config.marketOwner, royalty);
        listings := listings - {id};
      }
    }

    method SetRoyaltyBps(caller: Address, bps: nat) returns (ok: bool)
      modifies this
      ensures var r := SetRoyalty(config, old(Both()), caller, bps);
              ok == r.Some? && Both() == if ok then r.value else old(Both())
    {
      if caller != config.marketOwner || bps > BPS { return false; }
      organizerRoyaltyBps := bps;
      return true;
    }

    method Withdraw(payee: Address) returns (ok: bool)
      modifies this
      ensures var r := WithdrawPayments(old(Both()), payee);
              ok == r.Some? && Both() == if ok then r.value else old(Both())
    {
      var amount := if payee in deposits then deposits[payee] else 0;
      if amount > escrow { return false; }
      deposits := deposits[payee := 0];
      escrow := escrow - amount;
      return true;
    }
  }
}
