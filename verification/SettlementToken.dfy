/** genlayer/contracts/settlement_token.py: balances, and a one-way escrow (owner -> custodian -> amount).

    `State` is the contract's storage as a value; `Apply` says what one call does to it. The class
    `SettlementToken` keeps the storage in fields that its methods update in place, and each method is
    proved to do what `Apply` says. */
module Token {
  import opened Basics
  import opened Sums

  datatype Account = Account(id: nat)

  datatype State = State(
    balances: map<Account, nat>,
    escrows: map<Account, map<Account, nat>>,
    totalSupply: nat)

  datatype Error = NotPositive | AboveMintLimit | InsufficientUnescrowed | EscrowShort | Underflow

  datatype Reply = Refused(error: Error) | Done(state: State)

  datatype Call =
    | Mint(amount: int)
    | Transfer(to: Account, amount: int)
    | Escrow(custodian: Account, amount: int)
    | Release(owner: Account, to: Account, amount: int)

  const MINT_LIMIT := 1_000_000_000_000

  const EMPTY := State(map[], map[], 0)

  function Balance(s: State, a: Account): nat { Get(s.balances, a) }

  function Bucket(s: State, owner: Account): map<Account, nat> {
    if owner in s.escrows then s.escrows[owner] else map[]
  }

  function EscrowOf(s: State, owner: Account, custodian: Account): nat {
    Get(Bucket(s, owner), custodian)
  }

  /** Everything of `owner`'s that some custodian may move. */
  ghost function EscrowedTotal(s: State, owner: Account): nat { Sum(Bucket(s, owner)) }

  function Credit(balances: map<Account, nat>, a: Account, amount: nat): map<Account, nat> {
    balances[a := Get(balances, a) + amount]
  }

  ghost function Apply(s: State, sender: Account, call: Call): Reply {
    if call.amount <= 0 then Refused(NotPositive)
    else match call
      case Mint(amount) =>
        if amount > MINT_LIMIT then Refused(AboveMintLimit)
        else Done(s.(balances := Credit(s.balances, sender, amount), totalSupply := s.totalSupply + amount))
      case Transfer(to, amount) =>
        if Balance(s, sender) - EscrowedTotal(s, sender) < amount then Refused(InsufficientUnescrowed)
        else
          var debited := s.balances[sender := Balance(s, sender) - amount];
          Done(s.(balances := Credit(debited, to, amount)))
      case Escrow(custodian, amount) =>
        if Balance(s, sender) < EscrowedTotal(s, sender) + amount then Refused(InsufficientUnescrowed)
        else Done(s.(escrows := s.escrows[sender := Credit(Bucket(s, sender), custodian, amount)]))
      case Release(owner, to, amount) =>
        if EscrowOf(s, owner, sender) < amount then Refused(EscrowShort)
        else if Balance(s, owner) < amount then Refused(Underflow)
        else
          var held := Bucket(s, owner)[sender := EscrowOf(s, owner, sender) - amount];
          var debited := s.balances[owner := Balance(s, owner) - amount];
          Done(s.(escrows := s.escrows[owner := held], balances := Credit(debited, to, amount)))
  }

  /** A refused call is rolled back. */
  ghost function After(s: State, sender: Account, call: Call): State {
    match Apply(s, sender, call) case Done(s') => s' case Refused(_) => s
  }

  // ---------------------------------------------------------------- invariants of every reachable state

  /** No more of `o`'s is promised to custodians than it holds. */
  ghost predicate Covered(s: State, o: Account) { EscrowedTotal(s, o) <= Balance(s, o) }

  /** Nothing is created or lost, and every owner is covered. */
  ghost predicate Sound(s: State) {
    && Sum(s.balances) == s.totalSupply
    && forall o :: Covered(s, o)
  }

  lemma EscrowWithinTotal(s: State, o: Account, c: Account)
    ensures EscrowOf(s, o, c) <= EscrowedTotal(s, o)
  {
    SumAtLeast(Bucket(s, o), c);
  }

  lemma MoveConserves(balances: map<Account, nat>, a: Account, to: Account, amount: nat)
    requires amount <= Get(balances, a)
    ensures Sum(Credit(balances[a := Get(balances, a) - amount], to, amount)) == Sum(balances)
  {
    SumUpdate(balances, a, Get(balances, a) - amount);
    var debited := balances[a := Get(balances, a) - amount];
    SumUpdate(debited, to, Get(debited, to) + amount);
  }

  lemma ApplyConserves(s: State, sender: Account, call: Call)
    requires Sum(s.balances) == s.totalSupply
    ensures Sum(After(s, sender, call).balances) == After(s, sender, call).totalSupply
  {
    if Apply(s, sender, call).Done? {
      match call
      case Mint(amount) => SumUpdate(s.balances, sender, Balance(s, sender) + amount);
      case Transfer(to, amount) => MoveConserves(s.balances, sender, to, amount);
      case Escrow(_, _) =>
      case Release(owner, to, amount) => MoveConserves(s.balances, owner, to, amount);
    }
  }

  lemma ApplyKeepsCovered(s: State, sender: Account, call: Call, o: Account)
    requires Covered(s, o)
    ensures Covered(After(s, sender, call), o)
  {
    if Apply(s, sender, call).Done? {
      match call
      case Mint(_) =>
      case Transfer(_, _) =>
      case Escrow(custodian, amount) =>
        SumUpdate(Bucket(s, sender), custodian, EscrowOf(s, sender, custodian) + amount);
      case Release(owner, _, amount) =>
        SumUpdate(Bucket(s, owner), sender, EscrowOf(s, owner, sender) - amount);
    }
  }

  lemma ApplyKeepsSound(s: State, sender: Account, call: Call)
    requires Sound(s)
    ensures Sound(After(s, sender, call))
  {
    ApplyConserves(s, sender, call);
    forall o ensures Covered(After(s, sender, call), o) {
      ApplyKeepsCovered(s, sender, call, o);
    }
  }

  /** The state after any sequence of calls by anyone, refused ones included. */
  ghost function Run(calls: seq<(Account, Call)>): State {
    if calls == [] then EMPTY
    else var (sender, call) := calls[|calls| - 1]; After(Run(calls[..|calls| - 1]), sender, call)
  }

  /** Supply is conserved and escrow never exceeds the balance behind it, after any calls. */
  lemma {:induction false} ReachableIsSound(calls: seq<(Account, Call)>)
    ensures Sound(Run(calls))
  {
    if calls != [] {
      ReachableIsSound(calls[..|calls| - 1]);
      var (sender, call) := calls[|calls| - 1];
      ApplyKeepsSound(Run(calls[..|calls| - 1]), sender, call);
    }
  }

  /** In a sound state a release is refused only for its amount or for a short escrow: the
      balance never underflows. */
  lemma ReleaseNeverUnderflows(s: State, custodian: Account, owner: Account, to: Account, amount: int)
    requires Sound(s)
    ensures Apply(s, custodian, Release(owner, to, amount)).Done? <==> 0 < amount <= EscrowOf(s, owner, custodian)
    ensures Apply(s, custodian, Release(owner, to, amount)) != Refused(Underflow)
  {
    EscrowWithinTotal(s, owner, custodian);
    assert Covered(s, owner);
  }

  /** Authority over a balance: it falls only by its owner's own transfer, or by a release out of what the
      owner handed to the caller, and always by exactly what somebody else gains. */
  lemma BalanceAuthority(s: State, sender: Account, call: Call, o: Account)
    ensures var d := Balance(After(s, sender, call), o) - Balance(s, o);
            && (d < 0 ==>
                  && call.amount == -d
                  && ((call.Transfer? && sender == o && call.to != o)
                      || (call.Release? && call.owner == o && call.to != o && EscrowOf(s, o, sender) >= -d)))
            && (d > 0 ==>
                  && call.amount == d
                  && ((call.Mint? && sender == o && d <= MINT_LIMIT)
                      || (call.Transfer? && call.to == o && sender != o)
                      || (call.Release? && call.to == o && call.owner != o)))
    ensures Apply(s, sender, call).Done? && call.Transfer? && call.to != sender ==>
      && Balance(After(s, sender, call), sender) == Balance(s, sender) - call.amount
      && Balance(After(s, sender, call), call.to) == Balance(s, call.to) + call.amount
  {
    hide EscrowedTotal;
  }

  /** Authority over a bucket: it grows only by its owner's own `escrow` and shrinks only by a
      `release` of the custodian it was handed to, by exactly the amount named. */
  lemma BucketAuthority(s: State, sender: Account, call: Call, o: Account, c: Account)
    ensures var d := EscrowOf(After(s, sender, call), o, c) - EscrowOf(s, o, c);
            && (d > 0 ==> sender == o && call == Escrow(c, d))
            && (d < 0 ==> sender == c && call.Release? && call.owner == o && call.amount == -d)
  {
  }

  /** What a release that goes through moves: ownership by `MoveOf`, authority by the amount. */
  function MoveOf(owner: Account, to: Account, amount: int, a: Account): int {
    (if a == to then amount else 0) - (if a == owner then amount else 0)
  }

  lemma ReleaseMoves(s: State, custodian: Account, owner: Account, to: Account, amount: int, a: Account)
    requires Apply(s, custodian, Release(owner, to, amount)).Done?
    ensures var s' := After(s, custodian, Release(owner, to, amount));
            && Balance(s', a) - Balance(s, a) == MoveOf(owner, to, amount, a)
            && EscrowOf(s', a, custodian) == EscrowOf(s, a, custodian) - (if a == owner then amount else 0)
  {
  }

  /** Which calls go through, and why the others do not. */
  lemma CallsGoThrough(s: State, sender: Account, call: Call)
    requires Sound(s)
    ensures var reply, amount := Apply(s, sender, call), call.amount;
            && (amount <= 0 ==> reply == Refused(NotPositive))
            && (amount > 0 ==>
                  match call
                  case Mint(_) => if amount > 1_000_000_000_000 then reply == Refused(AboveMintLimit) else reply.Done?
                  case Transfer(_, _) =>
                    if amount > Balance(s, sender) - EscrowedTotal(s, sender) then
                      reply == Refused(InsufficientUnescrowed)
                    else reply.Done?
                  case Escrow(_, _) =>
                    if amount > Balance(s, sender) - EscrowedTotal(s, sender) then
                      reply == Refused(InsufficientUnescrowed)
                    else reply.Done?
                  case Release(owner, _, _) =>
                    if amount > EscrowOf(s, owner, sender) then reply == Refused(EscrowShort) else reply.Done?)
  {
    if call.Release? { ReleaseNeverUnderflows(s, sender, call.owner, call.to, call.amount); }
    hide Sound, EscrowedTotal;
  }

  /** What a call that goes through does to every balance, every bucket and the supply. */
  lemma CallMoves(s: State, sender: Account, call: Call, a: Account, c: Account)
    requires Apply(s, sender, call).Done?
    ensures var s' := After(s, sender, call);
            && Balance(s', a) - Balance(s, a)
               == (match call
                   case Mint(amount) => if a == sender then amount else 0
                   case Transfer(to, amount) => MoveOf(sender, to, amount, a)
                   case Escrow(_, _) => 0
                   case Release(owner, to, amount) => MoveOf(owner, to, amount, a))
            && EscrowOf(s', a, c) - EscrowOf(s, a, c)
               == (match call
                   case Escrow(custodian, amount) => if a == sender && c == custodian then amount else 0
                   case Release(owner, _, amount) => if a == owner && c == sender then -amount else 0
                   case _ => 0)
            && s'.totalSupply == s.totalSupply + (if call.Mint? then call.amount else 0)
  {
    hide EscrowedTotal;
  }

  // ---------------------------------------------------------------- the contract

  class SettlementToken {
    var balances: map<Account, nat>
    var escrows: map<Account, map<Account, nat>>
    var totalSupply: nat

    ghost function Storage(): State
      reads this
    {
      State(balances, escrows, totalSupply)
    }

    constructor ()
      ensures Storage() == EMPTY
    {
      balances, escrows, totalSupply := map[], map[], 0;
    }

    ghost predicate Answers(was: State, sender: Account, call: Call, error: Option<Error>)
      reads this
    {
      match Apply(was, sender, call)
      case Refused(e) => error == Some(e) && Storage() == was
      case Done(now) => error == None && Storage() == now
    }

    method Mint(sender: Account, amount: int) returns (error: Option<Error>)
      modifies this
      ensures Answers(old(Storage()), sender, Call.Mint(amount), error)
    {
      if amount <= 0 { return Some(NotPositive); }
      if amount > MINT_LIMIT { return Some(AboveMintLimit); }
      balances := balances[sender := Get(balances, sender) + amount];
      totalSupply := totalSupply + amount;
      return None;
    }

    method Transfer(sender: Account, to: Account, amount: int) returns (error: Option<Error>)
      modifies this
      ensures Answers(old(Storage()), sender, Call.Transfer(to, amount), error)
    {
      error := DebitFree(sender, amount);
      if error.Some? { return; }
      balances := balances[to := Get(balances, to) + amount];
    }

    method Escrow(sender: Account, custodian: Account, amount: int) returns (error: Option<Error>)
      modifies this
      ensures Answers(old(Storage()), sender, Call.Escrow(custodian, amount), error)
    {
      if amount <= 0 { return Some(NotPositive); }
      var total := TotalEscrowed(sender);
      if Get(balances, sender) < total + amount { return Some(InsufficientUnescrowed); }
      var held := if sender in escrows then escrows[sender] else map[];
      escrows := escrows[sender := held[custodian := Get(held, custodian) + amount]];
      return None;
    }

    method Release(sender: Account, owner: Account, to: Account, amount: int) returns (error: Option<Error>)
      modifies this
      ensures Answers(old(Storage()), sender, Call.Release(owner, to, amount), error)
    {
      if amount <= 0 { return Some(NotPositive); }
      var held := if owner in escrows then escrows[owner] else map[];
      var available := Get(held, sender);
      if available < amount { return Some(EscrowShort); }
      if Get(balances, owner) < amount { return Some(Underflow); }
      escrows := escrows[owner := held[sender := available - amount]];
      balances := balances[owner := Get(balances, owner) - amount];
      balances := balances[to := Get(balances, to) + amount];
      return None;
    }

    method EscrowBy(owner: Account, custodian: Account) returns (amount: nat)
      ensures amount == EscrowOf(Storage(), owner, custodian)
    {
      var held := if owner in escrows then escrows[owner] else map[];
      return Get(held, custodian);
    }

    method TotalEscrowed(owner: Account) returns (total: nat)
      ensures total == EscrowedTotal(Storage(), owner)
    {
      var held := if owner in escrows then escrows[owner] else map[];
      total := 0;
      while held != map[]
        invariant total + Sum(held) == EscrowedTotal(Storage(), owner)
        decreases |held|
      {
        var custodian :| custodian in held;
        SumWithout(held, custodian);
        total, held := total + held[custodian], held - {custodian};
      }
    }

    method DebitFree(sender: Account, amount: int) returns (error: Option<Error>)
      modifies this
      ensures error == if amount <= 0 then Some(NotPositive)
                       else if Balance(old(Storage()), sender) - EscrowedTotal(old(Storage()), sender) < amount
                       then Some(InsufficientUnescrowed) else None
      ensures Storage() == if error.Some? then old(Storage())
                           else old(Storage())
                           .(balances := old(balances)[sender := Get(old(balances), sender) - amount])
    {
      if amount <= 0 { return Some(NotPositive); }
      var total := TotalEscrowed(sender);
      var free := Get(balances, sender) - total;
      if free < amount { return Some(InsufficientUnescrowed); }
      balances := balances[sender := Get(balances, sender) - amount];
      return None;
    }
  }
}
