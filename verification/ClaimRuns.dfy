/** Runs of the protocol that go on from a given world, and the stretches that show what can happen are
    put together from. */
module ClaimRuns {
  import opened Basics
  import opened Sums
  import opened ClaimRules
  import opened ClaimProtocol
  import Judge = ClaimJudge
  import Token

  ghost function Onward(c: Judge.Config, self: Account, w: World, steps: seq<Step>): World {
    if steps == [] then w else Next(c, self, Onward(c, self, w, steps[..|steps| - 1]), steps[|steps| - 1])
  }

  ghost predicate PossibleFrom(c: Judge.Config, self: Account, w: World, steps: seq<Step>) {
    steps == [] ||
    (var init := steps[..|steps| - 1];
     PossibleFrom(c, self, w, init) && Possible(self, Onward(c, self, w, init), steps[|steps| - 1]))
  }

  /** Every step is possible and taken with care. */
  ghost predicate CarefulFrom(c: Judge.Config, self: Account, w: World, steps: seq<Step>) {
    steps == [] ||
    (var init, last := steps[..|steps| - 1], steps[|steps| - 1];
     && CarefulFrom(c, self, w, init)
     && Possible(self, Onward(c, self, w, init), last)
     && Careful(Onward(c, self, w, init), last))
  }

  lemma Nothing(c: Judge.Config, self: Account, w: World)
    ensures CarefulFrom(c, self, w, []) && PossibleFrom(c, self, w, []) && Onward(c, self, w, []) == w
  {
  }

  lemma Single(c: Judge.Config, self: Account, w: World, step: Step)
    ensures Onward(c, self, w, [step]) == Next(c, self, w, step)
    ensures PossibleFrom(c, self, w, [step]) <==> Possible(self, w, step)
    ensures CarefulFrom(c, self, w, [step]) <==> Possible(self, w, step) && Careful(w, step)
  {
    hide Next, Possible, Careful;
    assert [step][..0] == [];
    Nothing(c, self, w);
  }

  /** One stretch after another. */
  lemma {:induction false} Joined(c: Judge.Config, self: Account, w: World, a: seq<Step>, b: seq<Step>)
    ensures Onward(c, self, w, a + b) == Onward(c, self, Onward(c, self, w, a), b)
    ensures PossibleFrom(c, self, w, a + b)
            <==> PossibleFrom(c, self, w, a) && PossibleFrom(c, self, Onward(c, self, w, a), b)
    ensures CarefulFrom(c, self, w, a + b)
            <==> CarefulFrom(c, self, w, a) && CarefulFrom(c, self, Onward(c, self, w, a), b)
  {
    hide Next, Possible, Careful;
    if b == [] {
      assert a + b == a;
    } else {
      Joined(c, self, w, a, b[..|b| - 1]);
      assert (a + b)[..|a + b| - 1] == a + b[..|b| - 1];
    }
  }

  lemma Then(c: Judge.Config, self: Account, w: World, a: seq<Step>, step: Step)
    ensures Onward(c, self, w, a + [step]) == Next(c, self, Onward(c, self, w, a), step)
    ensures PossibleFrom(c, self, w, a) && Possible(self, Onward(c, self, w, a), step) ==>
      PossibleFrom(c, self, w, a + [step])
    ensures Possible(self, Onward(c, self, w, a), step) && Careful(Onward(c, self, w, a), step) ==>
      (CarefulFrom(c, self, w, a) ==> CarefulFrom(c, self, w, a + [step]))
  {
    hide Onward, PossibleFrom, CarefulFrom, Next, Possible, Careful;
    Joined(c, self, w, a, [step]);
    Single(c, self, Onward(c, self, w, a), step);
  }

  lemma {:induction false} CarefulIsPossible(c: Judge.Config, self: Account, w: World, steps: seq<Step>)
    requires CarefulFrom(c, self, w, steps)
    ensures PossibleFrom(c, self, w, steps)
  {
    hide Next, Possible, Careful;
    if steps != [] { CarefulIsPossible(c, self, w, steps[..|steps| - 1]); }
  }

  /** Runs from deployment are the runs that go on from the start. */
  lemma {:induction false} FromTheStart(c: Judge.Config, self: Account, start: nat, steps: seq<Step>)
    ensures Exec(c, self, start, steps) == Onward(c, self, Start(start), steps)
    ensures Legal(c, self, start, steps) <==> PossibleFrom(c, self, Start(start), steps)
    ensures CarefulRun(c, self, start, steps) <==> CarefulFrom(c, self, Start(start), steps)
  {
    hide Next, Possible, Careful, Start;
    if steps != [] { FromTheStart(c, self, start, steps[..|steps| - 1]); }
  }

  // ---------------------------------------------------------------- escrow for anyone

  /** Anyone can mint `n`, one at a time. */
  lemma {:induction false} Mint(c: Judge.Config, self: Account, w: World, a: Account, n: nat) returns (steps: seq<Step>)
    requires Token.Sound(w.token) && a != self
    ensures CarefulFrom(c, self, w, steps)
    ensures var w' := Onward(c, self, w, steps);
            && w' == w.(token := w'.token) && Token.Sound(w'.token) && w'.token.escrows == w.token.escrows
            && Token.Balance(w'.token, a) == Token.Balance(w.token, a) + n
  {
    if n == 0 {
      steps := [];
    } else {
      var init := Mint(c, self, w, a, n - 1);
      var w1 := Onward(c, self, w, init);
      var step := TokenStep(a, Token.Call.Mint(1));
      steps := init + [step];
      hide Onward, CarefulFrom, Token.Sound;
      Then(c, self, w, init, step);
      Token.ApplyKeepsSound(w1.token, a, step.call);
    }
  }

  /** Anyone but the judge itself can put `n` more into escrow with it. */
  lemma Endow(c: Judge.Config, self: Account, w: World, a: Account, n: nat) returns (steps: seq<Step>)
    requires Token.Sound(w.token) && a != self
    ensures CarefulFrom(c, self, w, steps)
    ensures var w' := Onward(c, self, w, steps);
            && w' == w.(token := w'.token) && Token.Sound(w'.token)
            && forall o :: Token.EscrowOf(w'.token, o, self)
                           == Token.EscrowOf(w.token, o, self) + (if o == a then n else 0)
  {
    var init := Mint(c, self, w, a, n);
    var w1 := Onward(c, self, w, init);
    if n == 0 {
      steps := init;
    } else {
      var step := TokenStep(a, Token.Call.Escrow(self, n));
      steps := init + [step];
      EscrowGoesThrough(w.token, w1.token, a, self, n);
      hide Onward, CarefulFrom, Token.Sound, Token.EscrowedTotal, Token.Apply, Token.EscrowOf;
      Then(c, self, w, init, step);
      Token.ApplyKeepsSound(w1.token, a, step.call);
    }
  }

  lemma EscrowGoesThrough(t: Token.State, minted: Token.State, a: Account, self: Account, n: nat)
    requires Token.Sound(t) && minted.escrows == t.escrows
    requires Token.Balance(minted, a) == Token.Balance(t, a) + n
    ensures n > 0 ==> forall o :: Token.EscrowOf(Token.After(minted, a, Token.Call.Escrow(self, n)), o, self)
                                  == Token.EscrowOf(t, o, self) + (if o == a then n else 0)
  {
    assert Token.Covered(t, a);
    assert Token.EscrowedTotal(minted, a) == Token.EscrowedTotal(t, a);
  }

  // ---------------------------------------------------------------- a deposit that is withdrawn

  /** The storage once the depositor's request of this moment is on record. */
  ghost function Asked(j: Judge.State, slug: string, at: nat): Judge.State {
    j.(withdrawalRequestedAt := j.withdrawalRequestedAt[slug := Bucketed(at)])
  }

  /** The storage once `a` has withdrawn the deposit behind `slug`. */
  ghost function Gone(j: Judge.State, a: Account, slug: string): Judge.State {
    j.(depositAmount := j.depositAmount[slug := 0],
       depositCommitted :=
         j.depositCommitted[a := Max(0, Get(j.depositCommitted, a) - Get(j.depositAmount, slug))],
       withdrawalRequestedAt := j.withdrawalRequestedAt[slug := 0])
  }

  lemma Requests(c: Judge.Config, self: Account, w: World, a: Account, slug: string)
    requires Judge.OwnerOf(w.judge, slug) == Some(a) && Get(w.judge.depositAmount, slug) > 0
    ensures Next(c, self, w, JudgeStep(a, Judge.RequestWithdrawal(slug, Some(w.clock))))
            == w.(judge := Asked(w.judge, slug, w.clock), log := w.log + [Requested(slug, w.clock)])
  {
    hide Bucketed;
    assert w.pending + multiset([]) == w.pending;
  }

  lemma Withdraws(c: Judge.Config, self: Account, w: World, a: Account, slug: string)
    requires Judge.OwnerOf(w.judge, slug) == Some(a) && Get(w.judge.depositAmount, slug) > 0
    requires Get(w.judge.openClaims, slug) == 0 && Get(w.judge.withdrawalRequestedAt, slug) != 0
    requires CooldownElapsed(w.clock, Get(w.judge.withdrawalRequestedAt, slug), c.cooldown)
    ensures var amount := Get(w.judge.depositAmount, slug);
            Next(c, self, w, JudgeStep(a, Judge.WithdrawDeposit(slug, Some(w.clock))))
            == w.(judge := Gone(w.judge, a, slug), pending := w.pending + multiset{Judge.Message(a, a, amount)},
                  log := w.log + [Withdrawn(slug, amount, w.clock)])
  {
    hide CooldownElapsed, Max;
    var amount := Get(w.judge.depositAmount, slug);
    EmitSum(a, a, amount, AmountOf());
  }

  lemma AsksAt(c: Judge.Config, self: Account, w: World, a: Account, slug: string, asked: nat)
    requires Judge.OwnerOf(w.judge, slug) == Some(a) && Get(w.judge.depositAmount, slug) > 0 && w.clock <= asked
    ensures var steps := [Tick(asked)] + [JudgeStep(a, Judge.RequestWithdrawal(slug, Some(asked)))];
            && CarefulFrom(c, self, w, steps)
            && Onward(c, self, w, steps)
               == w.(judge := Asked(w.judge, slug, asked), clock := asked, log := w.log + [Requested(slug, asked)])
  {
    hide Onward, CarefulFrom, Judge.Apply, EventOf, Asked;
    Single(c, self, w, Tick(asked));
    Requests(c, self, w.(clock := asked), a, slug);
    Then(c, self, w, [Tick(asked)], JudgeStep(a, Judge.RequestWithdrawal(slug, Some(asked))));
  }

  lemma TakesAt(c: Judge.Config, self: Account, w: World, a: Account, slug: string, left: nat)
    requires Judge.OwnerOf(w.judge, slug) == Some(a) && Get(w.judge.depositAmount, slug) > 0 && w.clock <= left
    requires Get(w.judge.openClaims, slug) == 0 && Get(w.judge.withdrawalRequestedAt, slug) != 0
    requires CooldownElapsed(left, Get(w.judge.withdrawalRequestedAt, slug), c.cooldown)
    ensures var amount := Get(w.judge.depositAmount, slug);
            var steps := [Tick(left)] + [JudgeStep(a, Judge.WithdrawDeposit(slug, Some(left)))];
            && CarefulFrom(c, self, w, steps)
            && Onward(c, self, w, steps)
               == World(w.token, Gone(w.judge, a, slug), w.pending + multiset{Judge.Message(a, a, amount)}, left,
                        w.log + [Withdrawn(slug, amount, left)])
  {
    hide Onward, CarefulFrom, Judge.Apply, EventOf, Gone, CooldownElapsed;
    Single(c, self, w, Tick(left));
    Withdraws(c, self, w.(clock := left), a, slug);
    Then(c, self, w, [Tick(left)], JudgeStep(a, Judge.WithdrawDeposit(slug, Some(left))));
  }

  /** Requested at `asked` and withdrawn at `left`. */
  ghost function Leaving(a: Account, slug: string, asked: nat, left: nat): seq<Step> {
    [Tick(asked)] + [JudgeStep(a, Judge.RequestWithdrawal(slug, Some(asked)))]
    + ([Tick(left)] + [JudgeStep(a, Judge.WithdrawDeposit(slug, Some(left)))])
  }

  /** The depositor of a slug without open claims can have its deposit on its way back, the token untouched. */
  lemma Leaves(c: Judge.Config, self: Account, w: World, a: Account, slug: string, asked: nat, left: nat)
    requires Judge.OwnerOf(w.judge, slug) == Some(a) && Get(w.judge.depositAmount, slug) > 0
    requires Get(w.judge.openClaims, slug) == 0
    requires w.clock <= asked <= left && asked >= CLOCK_BUCKET_SECONDS && left - Bucketed(asked) >= c.cooldown
    ensures CarefulFrom(c, self, w, Leaving(a, slug, asked, left))
    ensures var amount := Get(w.judge.depositAmount, slug);
            Onward(c, self, w, Leaving(a, slug, asked, left))
            == World(w.token, Gone(w.judge, a, slug), w.pending + multiset{Judge.Message(a, a, amount)}, left,
                     w.log + [Requested(slug, asked)] + [Withdrawn(slug, amount, left)])
  {
    hide Onward, CarefulFrom;
    AsksAt(c, self, w, a, slug, asked);
    var w1 := w.(judge := Asked(w.judge, slug, asked), clock := asked, log := w.log + [Requested(slug, asked)]);
    TakesAt(c, self, w1, a, slug, left);
    Joined(c, self, w, [Tick(asked)] + [JudgeStep(a, Judge.RequestWithdrawal(slug, Some(asked)))],
           [Tick(left)] + [JudgeStep(a, Judge.WithdrawDeposit(slug, Some(left)))]);
    assert Gone(w1.judge, a, slug) == Gone(w.judge, a, slug);
  }
}
