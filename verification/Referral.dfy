/**
 The referral programme: how a fee is shared out over eight levels of referrers, and the leader bonus
 that is paid up the referral chain.
 */
module Referral {
  import opened Amounts
  import opened Options

  // Splitting one level's cut -----------------------------------------------------------------

  /** The three ways a cut was treated, in historical order. */
  datatype Era = Whole | Burning | Reserving

  const BURN_PERCENT := 2000
  const RESERVE_PERCENT := 4000

  /** A payment at one level: to whom, the level's cut, and what became of it. */
  datatype Payout = Payout(to: AccountId, cut: nat, reward: nat, burnt: nat, reserved: nat)

  function Split(era: Era, to: AccountId, cut: nat): (p: Payout)
    ensures p.to == to && p.cut == cut
  {
    match era
    case Whole => Payout(to, cut, cut, 0, 0)
    case Burning => Payout(to, cut, CutFee(cut, HUNDRED_PERCENT - BURN_PERCENT), CutFee(cut, BURN_PERCENT), 0)
    case Reserving => Payout(to, cut, CutFee(cut, HUNDRED_PERCENT - RESERVE_PERCENT), 0, CutFee(cut, RESERVE_PERCENT))
  }

  /** `part` is `n` fifths of `whole`, rounded down. */
  predicate Fifths(part: nat, n: nat, whole: nat) {
    5 * part <= n * whole < 5 * part + 5
  }

  /**
   A cut is paid out whole, or four fifths of it are and one is burnt, or three fifths and two are reserved.
   A split cut loses one unit exactly when it is not divisible by five.
   */
  lemma SplitLosesAtMostOne(era: Era, to: AccountId, cut: nat)
    ensures var p := Split(era, to, cut);
            && p.reward + p.burnt + p.reserved == cut - (if era.Whole? || cut % 5 == 0 then 0 else 1)
            && Fifths(p.reward, if era.Whole? then 5 else if era.Burning? then 4 else 3, cut)
            && Fifths(p.burnt, if era.Burning? then 1 else 0, cut) && Fifths(p.reserved, if era.Reserving? then 2 else 0, cut)
  {
    CutFifths(cut, 1);
    CutFifths(cut, 2);
    CutFifths(cut, 3);
    CutFifths(cut, 4);
    FourAndOne(CutFee(cut, 8000), CutFee(cut, 2000), cut);
    ThreeAndTwo(CutFee(cut, 6000), CutFee(cut, 4000), cut);
    hide CutFee;
  }

  lemma FourAndOne(p: nat, q: nat, cut: nat)
    requires Fifths(p, 4, cut) && Fifths(q, 1, cut)
    ensures p + q == cut - (if cut % 5 == 0 then 0 else 1)
  {
  }

  lemma ThreeAndTwo(p: nat, q: nat, cut: nat)
    requires Fifths(p, 3, cut) && Fifths(q, 2, cut)
    ensures p + q == cut - (if cut % 5 == 0 then 0 else 1)
  {
  }

  lemma CutFifths(a: nat, k: nat)
    requires 0 < k < 5
    ensures Fifths(CutFee(a, 2000 * k), k, a)
  {
    var c := CutFee(a, 2000 * k);
    CutBounds(a, 2000 * k);
    assert a * (2000 * k) == 2000 * (k * a);
  }

  // Eight levels ------------------------------------------------------------------------------

  /** What a payout depends on about a referrer. */
  datatype Referrer = Referrer(id: AccountId, levels: nat, denominator: nat, status: nat)

  datatype Terms = Terms(percents: seq<nat>, denominator: bool, bonusStatus: nat, cashback: bool, era: Era)

  function SumUpTo(percents: seq<nat>, n: nat): nat
    requires n <= |percents|
  {
    if n == 0 then 0 else SumUpTo(percents, n - 1) + percents[n - 1]
  }

  function Cuts(ps: seq<Payout>): nat {
    if ps == [] then 0 else Cuts(ps[..|ps| - 1]) + ps[|ps| - 1].cut
  }

  /** A level's cut and what is carried on to a later level: `base` is split by the referrer's denominator. */
  datatype Share = Share(cut: nat, carried: nat)

  function LevelShare(t: Terms, r: Referrer, base: nat, carried: nat): (s: Share)
    ensures s.cut + s.carried <= base + carried
  {
    if !t.denominator then Share(base, carried)
    else
      CutsAddUp(base, r.denominator, if r.denominator < HUNDRED_PERCENT then HUNDRED_PERCENT - r.denominator else 0);
      var s := if r.denominator < HUNDRED_PERCENT
               then Share(CutFee(base, r.denominator), carried + CutFee(base, HUNDRED_PERCENT - r.denominator))
               else Share(base, carried);
      if r.status == t.bonusStatus && s.carried > 0 then Share(s.cut + s.carried, 0) else s
  }

  /** `part` is that percentage of `whole`, rounded down. */
  predicate IsPercent(part: nat, percent: nat, whole: nat) {
    part * HUNDRED_PERCENT <= whole * percent < (part + 1) * HUNDRED_PERCENT
  }

  /**
   With denominators, a referrer keeps that percentage of the level's base, or all of it, and the rest is
   carried on; one with the bonus status gets all that has been carried on.  At most one unit is lost.
   */
  lemma LevelShareIsExact(t: Terms, r: Referrer, base: nat, carried: nat)
    ensures var s := LevelShare(t, r, base, carried);
            if !t.denominator then s == Share(base, carried)
            else
              && base + carried - 1 <= s.cut + s.carried <= base + carried
              && (r.status == t.bonusStatus ==> s.carried == 0)
              && (r.status != t.bonusStatus ==>
                    && (if r.denominator < HUNDRED_PERCENT then IsPercent(s.cut, r.denominator, base) else s.cut == base)
                    && s.carried >= carried
                    && (if r.denominator < HUNDRED_PERCENT then IsPercent(s.carried - carried, HUNDRED_PERCENT - r.denominator, base) else s.carried == carried))
  {
    if t.denominator && r.denominator < HUNDRED_PERCENT {
      var c, d := CutFee(base, r.denominator), CutFee(base, HUNDRED_PERCENT - r.denominator);
      CutBounds(base, r.denominator);
      CutBounds(base, HUNDRED_PERCENT - r.denominator);
      assert base * r.denominator + base * (HUNDRED_PERCENT - r.denominator) == base * HUNDRED_PERCENT;
      assert (c + d + 2) * HUNDRED_PERCENT == (c + 1) * HUNDRED_PERCENT + (d + 1) * HUNDRED_PERCENT;
      LessFromScaled(base, c + d + 2, HUNDRED_PERCENT);
    }
  }

  /** The payout so far: what is left for the network, what is carried on, who was paid and what. */
  datatype Progress = Progress(network: int, carried: nat, paid: set<AccountId>, payouts: seq<Payout>)

  /** One level: a referrer who qualifies gets a share. */
  function PayLevel(t: Terms, total: nat, level: nat, r: Referrer, p: Progress): Progress
    requires 1 <= level <= |t.percents|
  {
    if t.percents[level - 1] > 0 && p.network > 0 && r.levels >= level then
      var s := LevelShare(t, r, CutFee(total, t.percents[level - 1]), p.carried);
      Progress(p.network - s.cut, s.carried, p.paid + {r.id}, p.payouts + [Split(t.era, r.id, s.cut)])
    else p
  }

  /** The chain of referrers stops at a repeated one. */
  predicate Continues(t: Terms, previous: AccountId, r: Referrer, p: Progress) {
    previous != r.id && (t.era.Whole? || r.id !in p.paid)
  }

  /** Levels from `level` on; `upline` gives each account's next rewardable referrer. */
  ghost function PayLevels(t: Terms, total: nat, level: nat, previous: AccountId, r: Referrer, upline: AccountId -> Referrer, p: Progress): Progress
    requires 1 <= level <= |t.percents| + 1
    decreases |t.percents| + 1 - level
  {
    if level > |t.percents| || !(Continues(t, previous, r, p) || (level == 1 && t.cashback)) then p
    else PayLevels(t, total, level + 1, r.id, upline(r.id), upline, PayLevel(t, total, level, r, p))
  }

  ghost predicate DistinctRecipients(ps: seq<Payout>) {
    forall i, j :: 0 <= i < j < |ps| ==> ps[i].to != ps[j].to
  }

  /** What every level keeps. */
  ghost predicate Sound(t: Terms, total: nat, levels: nat, p: Progress)
    requires levels <= |t.percents|
  {
    && p.network + Cuts(p.payouts) == total
    && Cuts(p.payouts) + p.carried <= CutFee(total, SumUpTo(t.percents, levels))
    && |p.payouts| <= levels
    && (forall k :: 0 <= k < |p.payouts| ==> p.payouts[k] == Split(t.era, p.payouts[k].to, p.payouts[k].cut) && p.payouts[k].to in p.paid)
    && (!t.era.Whole? ==> DistinctRecipients(p.payouts))
  }

  lemma LevelIsSound(t: Terms, total: nat, level: nat, r: Referrer, p: Progress)
    requires 1 <= level <= |t.percents| && Sound(t, total, level - 1, p) && (t.era.Whole? || r.id !in p.paid)
    ensures Sound(t, total, level, PayLevel(t, total, level, r, p))
  {
    hide LevelShare, Split, CutFee;
    CutsAddUp(total, SumUpTo(t.percents, level - 1), t.percents[level - 1]);
    var q := PayLevel(t, total, level, r, p);
    if q != p {
      assert q.payouts[..|q.payouts| - 1] == p.payouts;
    }
  }

  /**
   However the levels go, the network's part and the levels' cuts add up to the fee, the recipients
   are distinct once cuts are split, and the network's part is not negative if the percentages add up to at
   most 100%.
   */
  lemma {:induction false} LevelsAreSound(t: Terms, total: nat, level: nat, previous: AccountId, r: Referrer, upline: AccountId -> Referrer, p: Progress)
    requires 1 <= level <= |t.percents| + 1 && Sound(t, total, level - 1, p)
    requires level == 1 ==> p.paid == {}
    ensures var q := PayLevels(t, total, level, previous, r, upline, p);
            && q.network + Cuts(q.payouts) == total && |q.payouts| <= |t.percents|
            && (forall k :: 0 <= k < |q.payouts| ==> q.payouts[k] == Split(t.era, q.payouts[k].to, q.payouts[k].cut))
            && (!t.era.Whole? ==> DistinctRecipients(q.payouts))
            && (SumUpTo(t.percents, |t.percents|) <= HUNDRED_PERCENT ==> q.network >= 0)
    decreases |t.percents| + 1 - level
  {
    hide LevelShare, Split, CutFee, PayLevel, DistinctRecipients;
    if level > |t.percents| || !(Continues(t, previous, r, p) || (level == 1 && t.cashback)) {
      SumMonotone(t.percents, level - 1, |t.percents|);
      if SumUpTo(t.percents, |t.percents|) <= HUNDRED_PERCENT {
        CutIsPart(total, SumUpTo(t.percents, level - 1));
      }
    } else {
      LevelIsSound(t, total, level, r, p);
      LevelsAreSound(t, total, level + 1, r.id, upline(r.id), upline, PayLevel(t, total, level, r, p));
    }
  }

  lemma {:induction false} SumMonotone(percents: seq<nat>, m: nat, n: nat)
    requires m <= n <= |percents|
    ensures SumUpTo(percents, m) <= SumUpTo(percents, n)
  {
    if m < n {
      SumMonotone(percents, m, n - 1);
    }
  }

  // Who is paid at which level ------------------------------------------------------------------

  /** A fee to be shared out: `first` is the referrer at level 1. */
  datatype Fee = Fee(t: Terms, total: nat, payer: AccountId, first: Referrer, upline: AccountId -> Referrer)

  /** The referrer at a level. */
  ghost function AtLevel(f: Fee, level: nat): Referrer
    requires level >= 1
  {
    if level == 1 then f.first else f.upline(AtLevel(f, level - 1).id)
  }

  ghost function BelowLevel(f: Fee, level: nat): AccountId
    requires level >= 1
  {
    if level == 1 then f.payer else AtLevel(f, level - 1).id
  }

  ghost predicate Qualifies(f: Fee, level: nat)
    requires 1 <= level <= |f.t.percents|
  {
    f.t.percents[level - 1] > 0 && AtLevel(f, level).levels >= level
  }

  ghost function PaidTo(payouts: seq<Payout>): set<AccountId> {
    set k | 0 <= k < |payouts| :: payouts[k].to
  }

  /** A level is gone to unless its referrer is the account below, or was paid already once cuts are split. */
  ghost predicate GoesTo(f: Fee, level: nat, payouts: seq<Payout>)
    requires level >= 1
  {
    (level == 1 && f.t.cashback) || (BelowLevel(f, level) != AtLevel(f, level).id && (f.t.era.Whole? || AtLevel(f, level).id !in PaidTo(payouts)))
  }

  /** The `k`-th payout is the one at level `level`: the percentage of the fee, shared with what is carried on. */
  ghost predicate PaidAt(f: Fee, level: nat, p: Payout, carried: nat, carried': nat)
    requires 1 <= level <= |f.t.percents|
  {
    && Qualifies(f, level) && p == Split(f.t.era, AtLevel(f, level).id, p.cut)
    && exists base :: IsPercent(base, f.t.percents[level - 1], f.total) && Share(p.cut, carried') == LevelShare(f.t, AtLevel(f, level), base, carried)
  }

  /**
   How a fee was shared out over the first levels: `levels` says at which level each payout was made, `made`
   how many payouts had been made when a level was gone to.  Every level gone to whose referrer qualifies was
   paid, unless nothing was left of the fee.
   */
  ghost predicate SharedOut(f: Fee, payouts: seq<Payout>, levels: seq<nat>, carried: seq<nat>, made: seq<nat>) {
    && |made| <= |f.t.percents| && |levels| == |payouts| && |carried| == |payouts| + 1 && carried[0] == 0
    && EachPaid(f, payouts, levels, carried, |made|) && WaysTaken(f, payouts, levels, made)
    && Ascending(levels) && NoneLeftOut(f, payouts, levels, |made|)
  }

  ghost predicate Ascending(levels: seq<nat>) {
    forall k, l :: 0 <= k < l < |levels| ==> levels[k] < levels[l]
  }

  /** A level gone to whose referrer qualifies is paid, unless nothing is left of the fee. */
  ghost predicate NoneLeftOut(f: Fee, payouts: seq<Payout>, levels: seq<nat>, n: nat)
    requires n <= |f.t.percents|
  {
    forall l :: 1 <= l <= n && Qualifies(f, l) ==> l in levels || Cuts(payouts) >= f.total
  }

  /** Each payout is made at its level, out of what is left of the fee. */
  ghost predicate EachPaid(f: Fee, payouts: seq<Payout>, levels: seq<nat>, carried: seq<nat>, n: nat)
    requires n <= |f.t.percents| && |levels| == |payouts| && |carried| == |payouts| + 1
  {
    forall k :: 0 <= k < |levels| ==>
      1 <= levels[k] <= n && PaidAt(f, levels[k], payouts[k], carried[k], carried[k + 1]) && Cuts(payouts[..k]) < f.total
  }

  /** Each level was gone to, after the payouts at lower levels. */
  ghost predicate WaysTaken(f: Fee, payouts: seq<Payout>, levels: seq<nat>, made: seq<nat>)
    requires |levels| == |payouts|
  {
    forall l :: 0 <= l < |made| ==>
      && made[l] <= |payouts| && GoesTo(f, l + 1, payouts[..made[l]])
      && (forall k :: 0 <= k < |levels| ==> (levels[k] <= l <==> k < made[l]))
  }

  lemma SharedOutStarts(f: Fee)
    ensures SharedOut(f, [], [], [0], [])
  {
  }

  /** A level that pays nothing: its referrer does not qualify, or nothing is left. */
  lemma LevelPassed(f: Fee, payouts: seq<Payout>, levels: seq<nat>, carried: seq<nat>, made: seq<nat>)
    requires |made| < |f.t.percents| && SharedOut(f, payouts, levels, carried, made) && GoesTo(f, |made| + 1, payouts)
    requires Qualifies(f, |made| + 1) ==> Cuts(payouts) >= f.total
    ensures SharedOut(f, payouts, levels, carried, made + [|payouts|])
  {
    hide EachPaid, WaysTaken, NoneLeftOut, Ascending, Qualifies, GoesTo, Cuts;
    OneMorePassed(f, payouts, levels, carried, |made|);
    WaysPassed(f, payouts, levels, carried, made);
  }

  lemma OneMorePassed(f: Fee, payouts: seq<Payout>, levels: seq<nat>, carried: seq<nat>, n: nat)
    requires n < |f.t.percents| && |levels| == |payouts| && |carried| == |payouts| + 1
    requires EachPaid(f, payouts, levels, carried, n) && NoneLeftOut(f, payouts, levels, n)
    requires Qualifies(f, n + 1) ==> Cuts(payouts) >= f.total
    ensures EachPaid(f, payouts, levels, carried, n + 1) && NoneLeftOut(f, payouts, levels, n + 1)
  {
    hide PaidAt, Cuts, Qualifies;
  }

  lemma WaysPassed(f: Fee, payouts: seq<Payout>, levels: seq<nat>, carried: seq<nat>, made: seq<nat>)
    requires |made| <= |f.t.percents| && |levels| == |payouts| && |carried| == |payouts| + 1
    requires EachPaid(f, payouts, levels, carried, |made|) && WaysTaken(f, payouts, levels, made) && GoesTo(f, |made| + 1, payouts)
    ensures WaysTaken(f, payouts, levels, made + [|payouts|])
  {
    hide PaidAt, Cuts, GoesTo;
    assert payouts[..|payouts|] == payouts;
  }

  lemma LevelPaid(f: Fee, payouts: seq<Payout>, levels: seq<nat>, carried: seq<nat>, made: seq<nat>, p: Payout, more: nat)
    requires |made| < |f.t.percents| && SharedOut(f, payouts, levels, carried, made) && GoesTo(f, |made| + 1, payouts)
    requires Cuts(payouts) < f.total && PaidAt(f, |made| + 1, p, carried[|payouts|], more)
    ensures SharedOut(f, payouts + [p], levels + [|made| + 1], carried + [more], made + [|payouts|])
    ensures Cuts(payouts + [p]) == Cuts(payouts) + p.cut && PaidTo(payouts + [p]) == PaidTo(payouts) + {p.to}
  {
    hide *;
    Parts(f, payouts, levels, carried, made);
    PaidToMore(payouts, p);
    CutsMore(payouts, p);
    OneMorePaid(f, payouts, levels, carried, |made|, p, more);
    WaysLonger(f, payouts, levels, made, p);
    StaysAscending(f, payouts, levels, |made|, p);
    var all, at, on, gone := payouts + [p], levels + [|made| + 1], carried + [more], made + [|payouts|];
    Assemble(f, all, at, on, gone);
  }

  lemma Parts(f: Fee, payouts: seq<Payout>, levels: seq<nat>, carried: seq<nat>, made: seq<nat>)
    requires SharedOut(f, payouts, levels, carried, made)
    ensures |made| <= |f.t.percents| && |levels| == |payouts| && |carried| == |payouts| + 1 && carried[0] == 0
    ensures EachPaid(f, payouts, levels, carried, |made|) && WaysTaken(f, payouts, levels, made) && Ascending(levels) && NoneLeftOut(f, payouts, levels, |made|)
  {
    hide EachPaid, WaysTaken, NoneLeftOut, Ascending;
  }

  lemma Assemble(f: Fee, payouts: seq<Payout>, levels: seq<nat>, carried: seq<nat>, made: seq<nat>)
    requires |made| <= |f.t.percents| && |levels| == |payouts| && |carried| == |payouts| + 1 && carried[0] == 0
    requires EachPaid(f, payouts, levels, carried, |made|) && WaysTaken(f, payouts, levels, made) && Ascending(levels) && NoneLeftOut(f, payouts, levels, |made|)
    ensures SharedOut(f, payouts, levels, carried, made)
  {
    hide EachPaid, WaysTaken, NoneLeftOut, Ascending;
  }

  lemma CutsMore(payouts: seq<Payout>, p: Payout)
    ensures Cuts(payouts + [p]) == Cuts(payouts) + p.cut
  {
    assert (payouts + [p])[..|payouts|] == payouts;
  }

  lemma StaysAscending(f: Fee, payouts: seq<Payout>, levels: seq<nat>, n: nat, p: Payout)
    requires n < |f.t.percents| && Ascending(levels) && NoneLeftOut(f, payouts, levels, n) && forall k :: 0 <= k < |levels| ==> levels[k] <= n
    requires Cuts(payouts) < f.total
    ensures Ascending(levels + [n + 1]) && NoneLeftOut(f, payouts + [p], levels + [n + 1], n + 1)
  {
    hide Cuts, Qualifies;
    var at := levels + [n + 1];
    assert at[|levels|] == n + 1;
    forall l | l in levels ensures l in at {
      var k :| 0 <= k < |levels| && levels[k] == l;
      assert at[k] == l;
    }
  }

  lemma OneMorePaid(f: Fee, payouts: seq<Payout>, levels: seq<nat>, carried: seq<nat>, n: nat, p: Payout, more: nat)
    requires n < |f.t.percents| && |levels| == |payouts| && |carried| == |payouts| + 1 && EachPaid(f, payouts, levels, carried, n)
    requires Cuts(payouts) < f.total && PaidAt(f, n + 1, p, carried[|payouts|], more)
    ensures EachPaid(f, payouts + [p], levels + [n + 1], carried + [more], n + 1)
    ensures forall k :: 0 <= k < |levels| ==> levels[k] <= n
  {
    hide PaidAt, Cuts;
    var all, at, on := payouts + [p], levels + [n + 1], carried + [more];
    forall k | 0 <= k < |at| ensures 1 <= at[k] <= n + 1 && PaidAt(f, at[k], all[k], on[k], on[k + 1]) && Cuts(all[..k]) < f.total {
      assert all[..k] == payouts[..k];
      assert payouts[..|payouts|] == payouts;
    }
  }

  lemma WaysLonger(f: Fee, payouts: seq<Payout>, levels: seq<nat>, made: seq<nat>, p: Payout)
    requires |levels| == |payouts| && WaysTaken(f, payouts, levels, made) && GoesTo(f, |made| + 1, payouts)
    requires forall k :: 0 <= k < |levels| ==> levels[k] <= |made|
    ensures WaysTaken(f, payouts + [p], levels + [|made| + 1], made + [|payouts|])
  {
    hide GoesTo;
    var all, now := payouts + [p], made + [|payouts|];
    forall l | 0 <= l < |now| ensures now[l] <= |all| && GoesTo(f, l + 1, all[..now[l]]) {
      assert all[..now[l]] == payouts[..now[l]];
      assert payouts[..|payouts|] == payouts;
    }
  }

  lemma PaidToMore(payouts: seq<Payout>, p: Payout)
    ensures PaidTo(payouts + [p]) == PaidTo(payouts) + {p.to}
  {
    var all := payouts + [p];
    forall x | x in PaidTo(payouts) + {p.to} ensures x in PaidTo(all) {
      if x == p.to {
        assert all[|payouts|] == p;
      } else {
        var k :| 0 <= k < |payouts| && payouts[k].to == x;
        assert all[k] == payouts[k];
      }
    }
  }

  /** A level gone to is paid exactly if its referrer qualifies and something is left. */
  lemma LevelSharesOut(f: Fee, p: Progress, levels: seq<nat>, carried: seq<nat>, made: seq<nat>) returns (levels': seq<nat>, carried': seq<nat>)
    requires |made| < |f.t.percents| && SharedOut(f, p.payouts, levels, carried, made) && GoesTo(f, |made| + 1, p.payouts)
    requires p.network == f.total - Cuts(p.payouts) && p.paid == PaidTo(p.payouts) && p.carried == carried[|p.payouts|]
    ensures var q := PayLevel(f.t, f.total, |made| + 1, AtLevel(f, |made| + 1), p);
            && SharedOut(f, q.payouts, levels', carried', made + [|p.payouts|])
            && q.network == f.total - Cuts(q.payouts) && q.paid == PaidTo(q.payouts) && q.carried == carried'[|q.payouts|]
  {
    var level, r := |made| + 1, AtLevel(f, |made| + 1);
    var base := CutFee(f.total, f.t.percents[level - 1]);
    var s := LevelShare(f.t, r, base, p.carried);
    CutBounds(f.total, f.t.percents[level - 1]);
    hide CutFee, LevelShare, Split, SharedOut, GoesTo, Cuts, PaidTo, AtLevel;
    if Qualifies(f, level) && p.network > 0 {
      assert IsPercent(base, f.t.percents[level - 1], f.total);
      LevelPaid(f, p.payouts, levels, carried, made, Split(f.t.era, r.id, s.cut), s.carried);
      levels', carried' := levels + [level], carried + [s.carried];
    } else {
      LevelPassed(f, p.payouts, levels, carried, made);
      levels', carried' := levels, carried;
    }
  }

  /** The levels not gone to yet continue what was shared out below. */
  lemma {:induction false} LevelsShareOut(f: Fee, p: Progress, levels: seq<nat>, carried: seq<nat>, made: seq<nat>)
    returns (levels': seq<nat>, carried': seq<nat>, made': seq<nat>)
    requires |made| <= |f.t.percents| && SharedOut(f, p.payouts, levels, carried, made)
    requires p.network == f.total - Cuts(p.payouts) && p.paid == PaidTo(p.payouts) && p.carried == carried[|p.payouts|]
    ensures var q := PayLevels(f.t, f.total, |made| + 1, BelowLevel(f, |made| + 1), AtLevel(f, |made| + 1), f.upline, p);
            && SharedOut(f, q.payouts, levels', carried', made') && q.network == f.total - Cuts(q.payouts)
            && (|made'| < |f.t.percents| ==> !GoesTo(f, |made'| + 1, q.payouts))
    decreases |f.t.percents| - |made|
  {
    var level := |made| + 1;
    hide SharedOut, PayLevel, PaidTo, Cuts;
    if level > |f.t.percents| || !GoesTo(f, level, p.payouts) {
      return levels, carried, made;
    }
    var levels1, carried1 := LevelSharesOut(f, p, levels, carried, made);
    levels', carried', made' := LevelsShareOut(f, PayLevel(f.t, f.total, level, AtLevel(f, level), p), levels1, carried1, made + [|p.payouts|]);
  }

  /** Share a fee out over the levels, as `SharedOut` says. */
  method PayOutFees(t: Terms, account: Referrer, upline: AccountId -> Referrer, total: nat)
    returns (network: int, payouts: seq<Payout>, ghost levels: seq<nat>, ghost carried: seq<nat>, ghost made: seq<nat>)
    requires |t.percents| == 8
    ensures var first := if t.cashback && account.status > 0 then account else upline(account.id);
            var p := PayLevels(t, total, 1, account.id, first, upline, Progress(total, 0, {}, []));
            network == p.network && payouts == p.payouts
    ensures network + Cuts(payouts) == total && |payouts| <= 8
    ensures SumUpTo(t.percents, 8) <= HUNDRED_PERCENT ==> network >= 0
    ensures !t.era.Whole? ==> DistinctRecipients(payouts)
    ensures var f := Fee(t, total, account.id, if t.cashback && account.status > 0 then account else upline(account.id), upline);
            SharedOut(f, payouts, levels, carried, made) && (|made| < 8 ==> !GoesTo(f, |made| + 1, payouts))
  {
    var r := if t.cashback && account.status > 0 then account else upline(account.id);
    var previous, p := account.id, Progress(total, 0, {}, []);
    ghost var first := r;
    LevelsAreSound(t, total, 1, previous, r, upline, p);
    ghost var f := Fee(t, total, account.id, r, upline);
    SharedOutStarts(f);
    assert PaidTo([]) == {} && BelowLevel(f, 1) == account.id && AtLevel(f, 1) == r;
    levels, carried, made := LevelsShareOut(f, p, [], [0], []);
    hide SharedOut, GoesTo, PayLevel;
    var level := 1;
    while level <= 8
      invariant 1 <= level <= 9
      invariant PayLevels(t, total, level, previous, r, upline, p) == PayLevels(t, total, 1, account.id, first, upline, Progress(total, 0, {}, []))
      decreases 9 - level
    {
      if !(Continues(t, previous, r, p) || (level == 1 && t.cashback)) {
        break;
      }
      p := PayLevel(t, total, level, r, p);
      previous, r, level := r.id, upline(r.id), level + 1;
    }
    return p.network, p.payouts, levels, carried, made;
  }

  /** What left the fee pot for good: rewards, burnt and reserved amounts. */
  function Disbursed(ps: seq<Payout>): nat {
    if ps == [] then 0 else var p := ps[|ps| - 1]; Disbursed(ps[..|ps| - 1]) + p.reward + p.burnt + p.reserved
  }

  function Indivisible(ps: seq<Payout>): nat {
    if ps == [] then 0 else Indivisible(ps[..|ps| - 1]) + (if ps[|ps| - 1].cut % 5 == 0 then 0 else 1)
  }

  /** The units lost in splitting are one for each cut that is not divisible by five. */
  lemma {:induction false} SplitsLose(era: Era, ps: seq<Payout>)
    requires forall k :: 0 <= k < |ps| ==> ps[k] == Split(era, ps[k].to, ps[k].cut)
    ensures Cuts(ps) == Disbursed(ps) + (if era.Whole? then 0 else Indivisible(ps))
  {
    if ps != [] {
      var p := ps[|ps| - 1];
      SplitLosesAtMostOne(era, p.to, p.cut);
      SplitsLose(era, ps[..|ps| - 1]);
    }
  }

  /** Percentages that add up to more than 100% can overdraw the fee. */
  lemma OverdrawnByPercentages()
    ensures var t := Terms([6000, 6000, 0, 0, 0, 0, 0, 0], false, 0, false, Whole);
            PayLevels(t, 10, 1, 7, Referrer(6, 8, 0, 1), (n: nat) => Referrer(if n == 0 then 0 else n - 1, 8, 0, 1), Progress(10, 0, {}, [])).network == -2
  {
    var t := Terms([6000, 6000, 0, 0, 0, 0, 0, 0], false, 0, false, Whole);
    var upline: AccountId -> Referrer := (n: nat) => Referrer(if n == 0 then 0 else n - 1, 8, 0, 1);
    var p1 := PayLevel(t, 10, 1, Referrer(6, 8, 0, 1), Progress(10, 0, {}, []));
    var p2 := PayLevel(t, 10, 2, Referrer(5, 8, 0, 1), p1);
    CutBounds(10, 6000);
    assert p2.network == -2;
    assert PayLevel(t, 10, 3, upline(5), p2) == p2;
  }

  // The leader bonus --------------------------------------------------------------------------

  /**
   Terms of the leader bonus: eight volume thresholds with their rewards, the status a leader needs, how
   many levels up it goes, the account where chains end, and whether an account is paid only once.
   */
  datatype LeaderTerms = LeaderTerms(thresholds: seq<nat>, rewards: seq<nat>, minStatus: nat, levels: nat, root: AccountId, once: bool) {
    ghost predicate Valid() {
      |thresholds| == 8 && |rewards| == 8
    }
  }

  datatype Payment = Payment(to: AccountId, amount: nat)

  /** Level `j` is reached and pays more than was already paid. */
  predicate Earns(t: LeaderTerms, volume: nat, top: nat, j: nat)
    requires t.Valid() && 1 <= j <= 8
  {
    volume >= t.thresholds[j - 1] && t.rewards[j - 1] > top
  }

  /** The highest of the first `k` levels that earns, or 0. */
  function BestLevel(t: LeaderTerms, volume: nat, top: nat, k: nat): (b: nat)
    requires t.Valid() && k <= 8
    ensures b <= k && (b > 0 ==> Earns(t, volume, top, b)) && forall j :: b < j <= k ==> !Earns(t, volume, top, j)
  {
    if k == 0 then 0 else if Earns(t, volume, top, k) then k else BestLevel(t, volume, top, k - 1)
  }

  /** Level `j` (from 0) is the highest whose threshold is reached and whose reward exceeds what was paid. */
  ghost predicate IsHighest(t: LeaderTerms, volume: nat, top: nat, j: nat)
    requires t.Valid()
  {
    && j < 8 && volume >= t.thresholds[j] && t.rewards[j] > top
    && forall k :: j < k < 8 ==> volume < t.thresholds[k] || t.rewards[k] <= top
  }

  lemma HighestEarns(t: LeaderTerms, volume: nat, top: nat, b: nat)
    requires t.Valid() && b <= 8 && (b > 0 ==> Earns(t, volume, top, b)) && forall j :: b < j <= 8 ==> !Earns(t, volume, top, j)
    ensures b > 0 ==> IsHighest(t, volume, top, b - 1)
    ensures forall j: nat :: IsHighest(t, volume, top, j) ==> b == j + 1
  {
    forall k | b <= k < 8 ensures volume < t.thresholds[k] || t.rewards[k] <= top {
      assert !Earns(t, volume, top, k + 1);
    }
    forall j: nat | IsHighest(t, volume, top, j) ensures b == j + 1 {
      assert Earns(t, volume, top, j + 1);
    }
  }

  /** The reward percentage up to which the bonus is paid out once the leader has been considered. */
  function TopAfter(t: LeaderTerms, volume: nat, status: nat, paid: bool, top: nat): (r: nat)
    requires t.Valid()
    ensures r == top || (r > top && r in t.rewards)
    ensures r > top ==> status >= t.minStatus && volume >= t.thresholds[0] && !(t.once && paid) && exists j: nat :: IsHighest(t, volume, top, j) && r == t.rewards[j]
    ensures status >= t.minStatus && volume >= t.thresholds[0] && !(t.once && paid) ==> forall j: nat :: IsHighest(t, volume, top, j) ==> r == t.rewards[j]
  {
    if status >= t.minStatus && volume >= t.thresholds[0] && !(t.once && paid) then
      var b := BestLevel(t, volume, top, 8);
      HighestEarns(t, volume, top, b);
      if b == 0 then top else t.rewards[b - 1]
    else top
  }

  function PaidInAll(ps: seq<Payment>): nat {
    if ps == [] then 0 else ps[0].amount + PaidInAll(ps[1..])
  }

  /** No account is paid twice, and none that was paid before. */
  ghost predicate PaidOnce(ps: seq<Payment>, seen: set<AccountId>) {
    && (forall i :: 0 <= i < |ps| ==> ps[i].to !in seen)
    && (forall i, j :: 0 <= i < j < |ps| ==> ps[i].to != ps[j].to)
  }

  lemma PayFirst(p: Payment, ps: seq<Payment>, seen: set<AccountId>)
    ensures PaidInAll([p] + ps) == p.amount + PaidInAll(ps)
    ensures p.to !in seen && PaidOnce(ps, seen + {p.to}) ==> PaidOnce([p] + ps, seen)
  {
    assert ([p] + ps)[1..] == ps;
  }

  /** How many of the rewards exceed `top`. */
  function Higher(rewards: seq<nat>, top: nat): (n: nat)
    ensures n <= |rewards|
  {
    if rewards == [] then 0 else Higher(rewards[1..], top) + (if rewards[0] > top then 1 else 0)
  }

  lemma {:induction false} HigherDrops(rewards: seq<nat>, top: nat, later: nat)
    requires top <= later
    ensures Higher(rewards, later) <= Higher(rewards, top)
    ensures later in rewards && later > top ==> Higher(rewards, later) < Higher(rewards, top)
  {
    if rewards != [] {
      HigherDrops(rewards[1..], top, later);
    }
  }

  // Compression -------------------------------------------------------------------------------

  /** Which accounts are skipped on the way up. */
  datatype Compression = Compression(on: bool, levels: nat, root: AccountId, skips: AccountId -> bool)

  function Up(referrer: AccountId -> AccountId, a: AccountId, k: nat): AccountId {
    if k == 0 then a else referrer(Up(referrer, a, k - 1))
  }

  /** The counters of levels and of skipped accounts are bytes. */
  function NextLevel(level: nat): (l: nat)
    ensures l <= 255 && (level < 255 ==> l == level + 1)
  {
    (level + 1) % 256
  }

  function LevelAfter(level: nat, n: nat): nat {
    if n == 0 then level else NextLevel(LevelAfter(level, n - 1))
  }

  lemma {:induction false} LevelWraps(level: nat, n: nat)
    requires level <= 255
    ensures LevelAfter(level, n) == (level + n) % 256
  {
    if n > 0 {
      LevelWraps(level, n - 1);
      WrapStep(level + n - 1);
    }
  }

  lemma WrapStep(x: nat)
    ensures NextLevel(x % 256) == (x + 1) % 256
  {
    var q, r := x / 256, x % 256;
    assert x == 256 * q + r;
    if r == 255 {
      assert x + 1 == 256 * (q + 1);
    }
  }

  /** After `k` steps up the chain, the search goes on. */
  predicate GoesOn(c: Compression, referrer: AccountId -> AccountId, a: AccountId, k: nat) {
    LevelAfter(0, k) <= c.levels && Up(referrer, a, k) > c.root && c.skips(Up(referrer, a, k))
  }

  /** The search is over after `k` steps and not earlier. */
  ghost predicate FoundAfter(c: Compression, referrer: AccountId -> AccountId, a: AccountId, k: nat) {
    k >= 1 && !GoesOn(c, referrer, a, k) && forall j :: 1 <= j < k ==> GoesOn(c, referrer, a, j)
  }

  /**
   The next account up the chain that can be rewarded: the first one that is not skipped, or the one after
   the allowed number of skips, and never one below the root.  `None` means that after `steps` steps the
   search still goes on.
   */
  method NextRewardable(c: Compression, referrer: AccountId -> AccountId, a: AccountId, steps: nat) returns (r: Option<AccountId>)
    ensures a <= c.root ==> r == Some(c.root)
    ensures a > c.root && !c.on ==> r == Some(referrer(a))
    ensures a > c.root && c.on ==>
              && (r.None? <==> forall k :: 1 <= k <= steps ==> GoesOn(c, referrer, a, k))
              && (r.Some? ==> exists k: nat :: k <= steps && FoundAfter(c, referrer, a, k)
                                          && r.value == if Up(referrer, a, k) < c.root then c.root else Up(referrer, a, k))
  {
    if a <= c.root {
      return Some(c.root);
    }
    if !c.on {
      return Some(referrer(a));
    }
    var ref, current := a, 0;
    for k := 1 to steps + 1
      invariant ref == Up(referrer, a, k - 1) && current == LevelAfter(0, k - 1)
      invariant forall j :: 1 <= j < k ==> GoesOn(c, referrer, a, j)
    {
      ref, current := referrer(ref), NextLevel(current);
      if !(current <= c.levels && ref > c.root && c.skips(ref)) {
        assert FoundAfter(c, referrer, a, k);
        return Some(if ref < c.root then c.root else ref);
      }
      assert GoesOn(c, referrer, a, k);
    }
    return None;
  }

  ghost predicate SearchEnds(c: Compression, referrer: AccountId -> AccountId, a: AccountId) {
    exists k :: FoundAfter(c, referrer, a, k)
  }

  /** The search ends if some step stops it, and then the first such step does. */
  lemma {:induction false} FirstStop(c: Compression, referrer: AccountId -> AccountId, a: AccountId, k: nat)
    requires k >= 1 && !GoesOn(c, referrer, a, k)
    ensures SearchEnds(c, referrer, a)
  {
    if j :| 1 <= j < k && !GoesOn(c, referrer, a, j) {
      FirstStop(c, referrer, a, j);
    } else {
      assert FoundAfter(c, referrer, a, k);
    }
  }

  lemma CounterStops(c: Compression, referrer: AccountId -> AccountId, a: AccountId, k: nat)
    requires c.levels < 255 && k == 255
    ensures SearchEnds(c, referrer, a)
  {
    hide Up, LevelAfter, SearchEnds;
    LevelWraps(0, k);
    FirstStop(c, referrer, a, k);
  }

  /** The search would rest at `x` whatever the counter says. */
  predicate Rests(c: Compression, x: AccountId) {
    x <= c.root || !c.skips(x)
  }

  /** With 255 levels the counter stops nothing: only an account that is not skipped, or the root, does. */
  lemma SearchEndsWhen(c: Compression, referrer: AccountId -> AccountId, a: AccountId)
    requires c.levels <= 255
    ensures SearchEnds(c, referrer, a) <==> c.levels < 255 || exists k :: k >= 1 && Rests(c, Up(referrer, a, k))
  {
    if c.levels < 255 {
      CounterStops(c, referrer, a, 255);
      return;
    }
    forall k: nat | k >= 1 ensures !GoesOn(c, referrer, a, k) <==> Rests(c, Up(referrer, a, k)) {
      LevelWraps(0, k);
    }
    if SearchEnds(c, referrer, a) {
      var k: nat :| FoundAfter(c, referrer, a, k);
      assert k >= 1 && Rests(c, Up(referrer, a, k));
      assert exists k :: k >= 1 && Rests(c, Up(referrer, a, k));
    } else if exists k :: k >= 1 && Rests(c, Up(referrer, a, k)) {
      var k: nat :| k >= 1 && Rests(c, Up(referrer, a, k));
      FirstStop(c, referrer, a, k);
    }
  }

  /** Two accounts above the root that refer to each other. */
  function Circle(root: AccountId): AccountId -> AccountId {
    a => if a == root + 1 then root + 2 else root + 1
  }

  lemma {:induction false} CircleStaysAbove(root: AccountId, n: nat)
    ensures Up(Circle(root), root + 1, n) > root
  {
    if n > 0 {
      CircleStaysAbove(root, n - 1);
    }
  }

  /** Among skipped accounts in a circle, with 255 levels, the search goes on after any number of steps. */
  lemma EndlessSearch(root: AccountId, n: nat)
    ensures GoesOn(Compression(true, 255, root, _ => true), Circle(root), root + 1, n)
  {
    LevelWraps(0, n);
    CircleStaysAbove(root, n);
  }

  /** The search ends for every chain exactly when fewer than 255 levels are configured. */
  lemma CompressionEnds(levels: nat, root: AccountId)
    requires levels <= 255
    ensures levels < 255 <==>
              forall skips: AccountId -> bool, referrer: AccountId -> AccountId, a: AccountId :: SearchEnds(Compression(true, levels, root, skips), referrer, a)
  {
    if levels < 255 {
      forall skips: AccountId -> bool, referrer: AccountId -> AccountId, a: AccountId ensures SearchEnds(Compression(true, levels, root, skips), referrer, a) {
        SearchEndsWhen(Compression(true, levels, root, skips), referrer, a);
      }
    } else {
      var c, up, a := Compression(true, 255, root, _ => true), Circle(root), root + 1;
      forall n: nat ensures !FoundAfter(c, up, a, n) {
        EndlessSearch(root, n);
      }
      assert !SearchEnds(c, up, a);
    }
  }

  /** After `k` steps up from `a`, where the level was `level`, the bonus climbs on. */
  predicate Climbs(levels: nat, root: AccountId, upline: AccountId -> AccountId, a: AccountId, level: nat, k: nat) {
    LevelAfter(level, k + 1) <= levels && Up(upline, a, k) > root
  }

  ghost predicate EndsWithin(levels: nat, root: AccountId, upline: AccountId -> AccountId, a: AccountId, level: nat, steps: nat) {
    exists k :: 0 <= k <= steps && !Climbs(levels, root, upline, a, level, k)
  }

  ghost predicate ClimbEnds(levels: nat, root: AccountId, upline: AccountId -> AccountId, a: AccountId, level: nat) {
    exists k: nat :: !Climbs(levels, root, upline, a, level, k)
  }

  /** With 255 levels only a chain that reaches the root is climbed to an end. */
  lemma ClimbEndsWhen(levels: nat, root: AccountId, upline: AccountId -> AccountId, a: AccountId, level: nat)
    requires levels <= 255 && level <= 255
    ensures ClimbEnds(levels, root, upline, a, level) <==> levels < 255 || exists k :: Up(upline, a, k) <= root
  {
    if levels < 255 {
      var k := 255 + 255 - level;
      LevelWraps(level, k + 1);
      assert !Climbs(levels, root, upline, a, level, k);
    } else {
      if k :| Up(upline, a, k) <= root {
        assert !Climbs(levels, root, upline, a, level, k);
      }
      if k: nat :| !Climbs(levels, root, upline, a, level, k) {
        LevelWraps(level, k + 1);
        assert Up(upline, a, k) <= root;
      }
    }
  }

  /** Around a circle, with 255 levels, the bonus climbs on after any number of steps. */
  lemma EndlessClimb(root: AccountId, level: nat, n: nat)
    requires level <= 255
    ensures Climbs(255, root, Circle(root), root + 1, level, n)
  {
    LevelWraps(level, n + 1);
    CircleStaysAbove(root, n);
  }

  /** The bonus comes to an end on every chain exactly when fewer than 255 levels are configured. */
  lemma LeaderBonusEnds(levels: nat, root: AccountId)
    requires levels <= 255
    ensures levels < 255 <==> forall upline: AccountId -> AccountId, a: AccountId :: ClimbEnds(levels, root, upline, a, 1)
  {
    if levels < 255 {
      forall upline: AccountId -> AccountId, a: AccountId ensures ClimbEnds(levels, root, upline, a, 1) {
        ClimbEndsWhen(levels, root, upline, a, 1);
      }
    } else {
      var up, a := Circle(root), root + 1;
      forall n: nat ensures Climbs(255, root, up, a, 1, n) {
        EndlessClimb(root, 1, n);
      }
      assert !ClimbEnds(255, root, up, a, 1);
    }
  }

  // Who is paid what on the way up --------------------------------------------------------------

  datatype Purchase = Purchase(t: LeaderTerms, status: AccountId -> nat, upline: AccountId -> AccountId, volume: nat)

  function VolumeIn(volumes: map<AccountId, nat>, a: AccountId): nat {
    if a in volumes then volumes[a] else 0
  }

  /** What a visit adds to an account's volume. */
  function Gain(p: Purchase, a: AccountId): nat {
    if p.status(a) >= p.t.minStatus then p.volume else 0
  }

  /** How many of the first `n` accounts from `a` upwards are `w`. */
  ghost function Visits(upline: AccountId -> AccountId, a: AccountId, n: nat, w: AccountId): nat {
    if n == 0 then 0 else Visits(upline, a, n - 1, w) + (if Up(upline, a, n - 1) == w then 1 else 0)
  }

  /** The bonus of the `k`-th account: the share between two successive rewards. */
  ghost function CutAt(p: Purchase, tops: seq<nat>, k: nat): nat
    requires k + 1 < |tops|
  {
    if tops[k + 1] >= tops[k] then CutFee(p.volume, tops[k + 1] - tops[k]) else 0
  }

  /** The `k`-th account was paid before. */
  ghost predicate PaidBefore(p: Purchase, a: AccountId, seen: set<AccountId>, tops: seq<nat>, k: nat)
    requires k < |tops|
  {
    Up(p.upline, a, k) in seen || exists j :: 0 <= j < k && Up(p.upline, a, j) == Up(p.upline, a, k) && CutAt(p, tops, j) > 0
  }

  /** The volume of the `k`-th account when the purchase has been counted for it, once for each visit. */
  ghost function VolumeAt(p: Purchase, before: map<AccountId, nat>, a: AccountId, k: nat): nat {
    var w := Up(p.upline, a, k);
    VolumeIn(before, w) + Visits(p.upline, a, k + 1, w) * Gain(p, w)
  }

  /** `tops` are the rewards paid out up to each account: each account raises it by what its own volume earns. */
  ghost predicate TopsClimb(p: Purchase, before: map<AccountId, nat>, a: AccountId, seen: set<AccountId>, tops: seq<nat>)
    requires p.t.Valid()
  {
    |tops| >= 2 && forall k :: 0 <= k < |tops| - 1 ==> TopClimbs(p, before, a, seen, tops, k)
  }

  /** What the `k`-th account's volume earns beyond what was paid decides up to where it is paid. */
  ghost predicate TopClimbs(p: Purchase, before: map<AccountId, nat>, a: AccountId, seen: set<AccountId>, tops: seq<nat>, k: nat)
    requires p.t.Valid() && k + 1 < |tops|
  {
    tops[k + 1] == TopAfter(p.t, VolumeAt(p, before, a, k), p.status(Up(p.upline, a, k)), PaidBefore(p, a, seen, tops, k), tops[k])
  }

  /** The bonuses that are not 0, in order. */
  ghost function PaymentsOf(p: Purchase, a: AccountId, tops: seq<nat>): seq<Payment>
    decreases |tops|
  {
    if |tops| < 2 then []
    else (if CutAt(p, tops, 0) > 0 then [Payment(a, CutAt(p, tops, 0))] else []) + PaymentsOf(p, p.upline(a), tops[1..])
  }

  ghost predicate VolumesClimb(p: Purchase, before: map<AccountId, nat>, after: map<AccountId, nat>, a: AccountId, n: nat) {
    forall w :: VolumeIn(after, w) == VolumeIn(before, w) + Visits(p.upline, a, n, w) * Gain(p, w)
  }

  lemma {:induction false} VisitsFromNext(upline: AccountId -> AccountId, a: AccountId, n: nat, w: AccountId)
    ensures Visits(upline, a, n + 1, w) == (if a == w then 1 else 0) + Visits(upline, upline(a), n, w)
  {
    if n > 0 {
      VisitsFromNext(upline, a, n - 1, w);
      OneStepUp(upline, a, n - 1);
    }
  }

  /** The first account raises what was paid by what its own volume earns. */
  lemma FirstTop(p: Purchase, before: map<AccountId, nat>, a: AccountId, seen: set<AccountId>, tops: seq<nat>)
    requires p.t.Valid() && |tops| >= 2
    requires tops[1] == TopAfter(p.t, VolumeIn(before, a) + Gain(p, a), p.status(a), a in seen, tops[0])
    ensures TopClimbs(p, before, a, seen, tops, 0)
  {
    hide TopAfter, CutAt, VolumeIn, Gain;
    VisitsOne(p.upline, a);
    assert Up(p.upline, a, 0) == a;
    assert VolumeAt(p, before, a, 0) == VolumeIn(before, a) + Gain(p, a);
    assert PaidBefore(p, a, seen, tops, 0) <==> a in seen;
  }

  lemma FirstPayment(p: Purchase, a: AccountId, top: nat, tops: seq<nat>)
    requires tops != [] && tops[0] >= top
    ensures PaymentsOf(p, a, [top] + tops) == (if CutFee(p.volume, tops[0] - top) > 0 then [Payment(a, CutFee(p.volume, tops[0] - top))] else [])
                                              + PaymentsOf(p, p.upline(a), tops)
  {
    var all := [top] + tops;
    hide CutFee;
    assert all[1..] == tops && CutAt(p, all, 0) == CutFee(p.volume, tops[0] - top);
  }

  /** The first account alone. */
  lemma ClimbOfOne(p: Purchase, before: map<AccountId, nat>, after: map<AccountId, nat>, a: AccountId, seen: set<AccountId>, top: nat, now: nat)
    requires p.t.Valid() && now == TopAfter(p.t, VolumeIn(before, a) + Gain(p, a), p.status(a), a in seen, top) && now >= top
    requires Counted(p, before, after, a)
    ensures TopsClimb(p, before, a, seen, [top, now]) && VolumesClimb(p, before, after, a, 1)
    ensures PaymentsOf(p, a, [top, now]) == if CutFee(p.volume, now - top) > 0 then [Payment(a, CutFee(p.volume, now - top))] else []
  {
    hide TopAfter, VolumeAt, PaidBefore, CutFee;
    VisitsOne(p.upline, a);
    FirstTop(p, before, a, seen, [top, now]);
    assert [top, now] == [top] + [now];
    FirstPayment(p, a, top, [now]);
  }

  /** The purchase was counted once for `a`. */
  ghost predicate Counted(p: Purchase, before: map<AccountId, nat>, after: map<AccountId, nat>, a: AccountId) {
    forall w :: VolumeIn(after, w) == VolumeIn(before, w) + (if w == a then Gain(p, a) else 0)
  }

  lemma VisitsOne(upline: AccountId -> AccountId, a: AccountId)
    ensures forall w :: Visits(upline, a, 1, w) == if w == a then 1 else 0
  {
    forall w ensures Visits(upline, a, 1, w) == if w == a then 1 else 0 {
      VisitsFromNext(upline, a, 0, w);
    }
  }

  /** The first account and the climb from the next one on. */
  lemma ClimbOneMore(p: Purchase, before: map<AccountId, nat>, between: map<AccountId, nat>, after: map<AccountId, nat>, a: AccountId,
                     seen: set<AccountId>, top: nat, tops: seq<nat>, seen': set<AccountId>)
    requires p.t.Valid() && tops != [] && tops[0] >= top
    requires tops[0] == TopAfter(p.t, VolumeIn(before, a) + Gain(p, a), p.status(a), a in seen, top)
    requires Counted(p, before, between, a) && seen' == if CutFee(p.volume, tops[0] - top) > 0 then seen + {a} else seen
    requires TopsClimb(p, between, p.upline(a), seen', tops) && VolumesClimb(p, between, after, p.upline(a), |tops| - 1)
    ensures TopsClimb(p, before, a, seen, [top] + tops) && VolumesClimb(p, before, after, a, |tops|)
    ensures PaymentsOf(p, a, [top] + tops) == (if CutFee(p.volume, tops[0] - top) > 0 then [Payment(a, CutFee(p.volume, tops[0] - top))] else [])
                                              + PaymentsOf(p, p.upline(a), tops)
  {
    hide *;
    VolumesOneMore(p, before, between, after, a, |tops| - 1);
    FirstPayment(p, a, top, tops);
    TopsOneMore(p, before, between, a, seen, top, tops, seen');
  }

  lemma TopsOneMore(p: Purchase, before: map<AccountId, nat>, between: map<AccountId, nat>, a: AccountId,
                    seen: set<AccountId>, top: nat, tops: seq<nat>, seen': set<AccountId>)
    requires p.t.Valid() && tops != [] && tops[0] >= top
    requires tops[0] == TopAfter(p.t, VolumeIn(before, a) + Gain(p, a), p.status(a), a in seen, top)
    requires Counted(p, before, between, a) && seen' == if CutFee(p.volume, tops[0] - top) > 0 then seen + {a} else seen
    requires TopsClimb(p, between, p.upline(a), seen', tops)
    ensures TopsClimb(p, before, a, seen, [top] + tops)
  {
    hide TopAfter, TopClimbs, CutFee, Counted, VolumeIn, Gain;
    var all := [top] + tops;
    FirstTop(p, before, a, seen, all);
    forall k | 0 <= k < |all| - 1 ensures TopClimbs(p, before, a, seen, all, k) {
      if k > 0 {
        LaterTop(p, before, between, a, seen, top, tops, seen', k - 1);
      }
    }
  }

  lemma LaterTop(p: Purchase, before: map<AccountId, nat>, between: map<AccountId, nat>, a: AccountId,
                 seen: set<AccountId>, top: nat, tops: seq<nat>, seen': set<AccountId>, k: nat)
    requires p.t.Valid() && tops != [] && tops[0] >= top && k < |tops| - 1
    requires Counted(p, before, between, a) && seen' == if CutFee(p.volume, tops[0] - top) > 0 then seen + {a} else seen
    requires TopsClimb(p, between, p.upline(a), seen', tops)
    ensures TopClimbs(p, before, a, seen, [top] + tops, k + 1)
  {
    hide TopAfter, VolumeAt, PaidBefore, CutFee, Up;
    assert TopClimbs(p, between, p.upline(a), seen', tops, k);
    OneStepUp(p.upline, a, k);
    SameVolume(p, before, between, a, k);
    SamePaid(p, a, seen, top, tops, seen', k);
  }

  lemma VolumesOneMore(p: Purchase, before: map<AccountId, nat>, between: map<AccountId, nat>, after: map<AccountId, nat>, a: AccountId, n: nat)
    requires Counted(p, before, between, a) && VolumesClimb(p, between, after, p.upline(a), n)
    ensures VolumesClimb(p, before, after, a, n + 1)
  {
    hide VolumeIn, Gain;
    forall w ensures VolumeIn(after, w) == VolumeIn(before, w) + Visits(p.upline, a, n + 1, w) * Gain(p, w) {
      VisitsFromNext(p.upline, a, n, w);
      MoreVisits(Visits(p.upline, p.upline(a), n, w), if a == w then 1 else 0, Gain(p, w));
    }
  }

  lemma MoreVisits(n: nat, m: nat, gain: nat)
    ensures (m + n) * gain == m * gain + n * gain
  {
  }

  lemma SameVolume(p: Purchase, before: map<AccountId, nat>, between: map<AccountId, nat>, a: AccountId, k: nat)
    requires Counted(p, before, between, a)
    ensures VolumeAt(p, before, a, k + 1) == VolumeAt(p, between, p.upline(a), k)
  {
    OneStepUp(p.upline, a, k);
    var w := Up(p.upline, a, k + 1);
    VisitsFromNext(p.upline, a, k + 1, w);
    MoreVisits(Visits(p.upline, p.upline(a), k + 1, w), if a == w then 1 else 0, Gain(p, w));
  }

  lemma SamePaid(p: Purchase, a: AccountId, seen: set<AccountId>, top: nat, tops: seq<nat>, seen': set<AccountId>, k: nat)
    requires tops != [] && tops[0] >= top && k < |tops| && seen' == if CutFee(p.volume, tops[0] - top) > 0 then seen + {a} else seen
    ensures PaidBefore(p, a, seen, [top] + tops, k + 1) <==> PaidBefore(p, p.upline(a), seen', tops, k)
  {
    var all, next := [top] + tops, p.upline(a);
    OneStepUp(p.upline, a, k);
    assert CutAt(p, all, 0) == CutFee(p.volume, tops[0] - top) && Up(p.upline, a, 0) == a;
    forall j: nat | j < k ensures CutAt(p, all, j + 1) == CutAt(p, tops, j) && Up(p.upline, a, j + 1) == Up(p.upline, next, j) {
      OneStepUp(p.upline, a, j);
    }
    hide CutAt, Up, CutFee;
    if PaidBefore(p, a, seen, all, k + 1) && Up(p.upline, a, k + 1) !in seen {
      var j :| 0 <= j < k + 1 && Up(p.upline, a, j) == Up(p.upline, a, k + 1) && CutAt(p, all, j) > 0;
      if j > 0 {
        assert Up(p.upline, next, j - 1) == Up(p.upline, next, k) && CutAt(p, tops, j - 1) > 0;
      }
    }
    if PaidBefore(p, next, seen', tops, k) && Up(p.upline, next, k) !in seen' {
      var j :| 0 <= j < k && Up(p.upline, next, j) == Up(p.upline, next, k) && CutAt(p, tops, j) > 0;
      assert Up(p.upline, a, j + 1) == Up(p.upline, a, k + 1) && CutAt(p, all, j + 1) > 0;
    }
  }

  /** `n` accounts are visited: the climb goes on until it ends or the steps are used up. */
  ghost predicate StopsAfter(levels: nat, root: AccountId, upline: AccountId -> AccountId, a: AccountId, level: nat, steps: nat, n: nat) {
    && 1 <= n <= steps + 1 && (forall k :: 0 <= k < n - 1 ==> Climbs(levels, root, upline, a, level, k))
    && (n == steps + 1 || !Climbs(levels, root, upline, a, level, n - 1))
  }

  lemma StopsAtOnce(levels: nat, root: AccountId, upline: AccountId -> AccountId, a: AccountId, level: nat, steps: nat)
    requires steps == 0 || !(NextLevel(level) <= levels && a > root)
    ensures StopsAfter(levels, root, upline, a, level, steps, 1)
    ensures EndsWithin(levels, root, upline, a, level, steps) <==> !(NextLevel(level) <= levels && a > root)
  {
    FirstClimb(levels, root, upline, a, level);
    hide Climbs;
    if steps == 0 {
      assert EndsWithin(levels, root, upline, a, level, 0) <==> !Climbs(levels, root, upline, a, level, 0);
    } else {
      assert !Climbs(levels, root, upline, a, level, 0);
    }
  }

  lemma StopsOneLater(levels: nat, root: AccountId, upline: AccountId -> AccountId, a: AccountId, level: nat, steps: nat, n: nat)
    requires steps > 0 && NextLevel(level) <= levels && a > root
    requires StopsAfter(levels, root, upline, upline(a), NextLevel(level), steps - 1, n)
    ensures StopsAfter(levels, root, upline, a, level, steps, n + 1)
    ensures EndsWithin(levels, root, upline, a, level, steps) <==> EndsWithin(levels, root, upline, upline(a), NextLevel(level), steps - 1)
  {
    StepsEnd(levels, root, upline, a, level, steps);
    FirstClimb(levels, root, upline, a, level);
    hide EndsWithin;
    forall k | 0 <= k < n ensures Climbs(levels, root, upline, a, level, k) {
      if k > 0 {
        LaterClimb(levels, root, upline, a, level, k - 1);
      }
    }
    LaterClimb(levels, root, upline, a, level, n - 1);
  }

  lemma FirstClimb(levels: nat, root: AccountId, upline: AccountId -> AccountId, a: AccountId, level: nat)
    ensures Climbs(levels, root, upline, a, level, 0) <==> NextLevel(level) <= levels && a > root
  {
    assert LevelAfter(level, 1) == NextLevel(LevelAfter(level, 0)) && Up(upline, a, 0) == a;
  }

  lemma LaterClimb(levels: nat, root: AccountId, upline: AccountId -> AccountId, a: AccountId, level: nat, k: nat)
    ensures Climbs(levels, root, upline, a, level, k + 1) == Climbs(levels, root, upline, upline(a), NextLevel(level), k)
  {
    OneStepUp(upline, a, k);
    OneLevelOn(level, k + 1);
  }

  lemma OwnStep(p: Purchase, before: map<AccountId, nat>, after: map<AccountId, nat>, a: AccountId, seen: set<AccountId>, top: nat, now: nat, cut: nat, steps: nat, level: nat)
    requires p.t.Valid() && now == TopAfter(p.t, VolumeIn(before, a) + (if p.status(a) >= p.t.minStatus then p.volume else 0), p.status(a), a in seen, top)
    requires after == (if p.status(a) >= p.t.minStatus then before[a := VolumeIn(before, a) + p.volume] else before)
    requires cut == CutFee(p.volume, now - top)
    ensures now >= top && Counted(p, before, after, a) && now == TopAfter(p.t, VolumeIn(before, a) + Gain(p, a), p.status(a), a in seen, top)
  {
    hide TopAfter, CutFee;
  }

  lemma TotalOfOne(t: LeaderTerms, volume: nat, top: nat, now: nat, cut: nat, seen: set<AccountId>, a: AccountId)
    requires t.Valid() && top <= now && (now == top || now in t.rewards) && cut == CutFee(volume, now - top) && (t.once && a in seen ==> cut == 0)
    ensures var payments := if cut > 0 then [Payment(a, cut)] else [];
            && PaidInAll(payments) <= CutFee(volume, now - top) && |payments| <= Higher(t.rewards, top) <= 8 && (t.once ==> PaidOnce(payments, seen))
  {
    HigherDrops(t.rewards, top, now);
    if cut > 0 {
      PayFirst(Payment(a, cut), [], seen);
      assert [Payment(a, cut)] + [] == [Payment(a, cut)];
    }
  }

  lemma TotalOneMore(t: LeaderTerms, volume: nat, top: nat, now: nat, last: nat, cut: nat, payments: seq<Payment>, seen: set<AccountId>, a: AccountId)
    requires t.Valid() && top <= now <= last && (now == top || now in t.rewards) && cut == CutFee(volume, now - top) && (t.once && a in seen ==> cut == 0)
    requires PaidInAll(payments) <= CutFee(volume, last - now) && |payments| <= Higher(t.rewards, now) <= 8
    requires t.once ==> PaidOnce(payments, if cut > 0 then seen + {a} else seen)
    ensures var all := (if cut > 0 then [Payment(a, cut)] else []) + payments;
            && PaidInAll(all) <= CutFee(volume, last - top) && |all| <= Higher(t.rewards, top) <= 8 && (t.once ==> PaidOnce(all, seen))
  {
    HigherDrops(t.rewards, top, now);
    CutsAddUp(volume, now - top, last - now);
    PayFirst(Payment(a, cut), payments, seen);
    hide CutFee, PaidOnce, Higher;
    if cut == 0 {
      assert [] + payments == payments;
    }
  }

  class Leaders {
    /** Network volume of each account in the current period. */
    var volumes: map<AccountId, nat>

    constructor ()
      ensures forall a :: VolumeIn(volumes, a) == 0
    {
      volumes := map[];
    }

    /**
     Pay the bonus of a purchase up the chain, going up `steps` accounts at most.  `tops` are the rewards paid
     out up to each account: they determine every payment and every volume.  What is paid in all is at most the
     share of the highest reward reached, each account on the way is paid only what exceeds the rewards already
     paid, and there are at most eight payments, whatever shape the chain has and however far the bonus climbs.
     */
    method UpdateNv(t: LeaderTerms, status: AccountId -> nat, upline: AccountId -> AccountId, volume: nat, level: nat, top: nat,
                    a: AccountId, seen: set<AccountId>, steps: nat) returns (payments: seq<Payment>, last: nat, ended: bool, ghost tops: seq<nat>)
      requires t.Valid() && level <= 255
      modifies this
      ensures top <= last && PaidInAll(payments) <= CutFee(volume, last - top) && (last == top || last in t.rewards)
      ensures |payments| <= Higher(t.rewards, top) <= 8
      ensures t.once ==> PaidOnce(payments, seen)
      ensures ended <==> EndsWithin(t.levels, t.root, upline, a, level, steps)
      ensures var p := Purchase(t, status, upline, volume);
              && |tops| >= 2 && TopsClimb(p, old(volumes), a, seen, tops) && tops[0] == top && tops[|tops| - 1] == last
              && payments == PaymentsOf(p, a, tops) && VolumesClimb(p, old(volumes), volumes, a, |tops| - 1)
              && StopsAfter(t.levels, t.root, upline, a, level, steps, |tops| - 1)
      decreases steps
    {
      hide *;
      ghost var p := Purchase(t, status, upline, volume);
      var now, cut := OwnBonus(t, status(a), volume, top, a, a in seen);
      ghost var between := volumes;
      OwnStep(p, old(volumes), between, a, seen, top, now, cut, steps, level);
      var level' := NextLevel(level);
      ended := !(level' <= t.levels && a > t.root);
      if !ended && steps > 0 {
        var seen' := if cut > 0 then seen + {a} else seen;
        ghost var tops';
        payments, last, ended, tops' := UpdateNv(t, status, upline, volume, level', now, upline(a), seen', steps - 1);
        tops := [top] + tops';
        ClimbOneMore(p, old(volumes), between, volumes, a, seen, top, tops', seen');
        StopsOneLater(t.levels, t.root, upline, a, level, steps, |tops'| - 1);
        TotalOneMore(t, volume, top, now, last, cut, payments, seen, a);
        payments := (if cut > 0 then [Payment(a, cut)] else []) + payments;
      } else {
        payments, last, tops := if cut > 0 then [Payment(a, cut)] else [], now, [top, now];
        ClimbOfOne(p, old(volumes), volumes, a, seen, top, now);
        StopsAtOnce(t.levels, t.root, upline, a, level, steps);
        TotalOfOne(t, volume, top, now, cut, seen, a);
      }
    }

    /** Count the purchase for account `a`, and find the bonus it earns itself. */
    method OwnBonus(t: LeaderTerms, status: nat, volume: nat, top: nat, a: AccountId, paid: bool) returns (now: nat, cut: nat)
      requires t.Valid()
      modifies this
      ensures volumes == if status >= t.minStatus then old(volumes)[a := VolumeIn(old(volumes), a) + volume] else old(volumes)
      ensures now == TopAfter(t, VolumeIn(old(volumes), a) + (if status >= t.minStatus then volume else 0), status, paid, top)
      ensures now == top || (now > top && now in t.rewards)
      ensures cut == CutFee(volume, now - top) && (t.once && paid ==> cut == 0)
    {
      if status >= t.minStatus {
        volumes := volumes[a := VolumeIn(volumes, a) + volume];
      }
      now := TopAfter(t, VolumeIn(volumes, a), status, paid, top);
      cut := CutFee(volume, now - top);
    }
  }

  /** The climb ends within `steps` steps: at once, or one step up within one step less. */
  lemma StepsEnd(levels: nat, root: AccountId, upline: AccountId -> AccountId, a: AccountId, level: nat, steps: nat)
    ensures EndsWithin(levels, root, upline, a, level, steps) <==>
              || !(NextLevel(level) <= levels && a > root)
              || (steps > 0 && EndsWithin(levels, root, upline, upline(a), NextLevel(level), steps - 1))
  {
    forall k: nat ensures Climbs(levels, root, upline, a, level, k + 1) == Climbs(levels, root, upline, upline(a), NextLevel(level), k) {
      LaterClimb(levels, root, upline, a, level, k);
    }
    FirstClimb(levels, root, upline, a, level);
    if k :| 0 < k <= steps && !Climbs(levels, root, upline, a, level, k) {
      assert !Climbs(levels, root, upline, upline(a), NextLevel(level), k - 1);
    }
    if steps > 0 && EndsWithin(levels, root, upline, upline(a), NextLevel(level), steps - 1) {
      var k :| 0 <= k <= steps - 1 && !Climbs(levels, root, upline, upline(a), NextLevel(level), k);
      assert !Climbs(levels, root, upline, a, level, k + 1);
    }
  }

  lemma {:induction false} OneStepUp(upline: AccountId -> AccountId, a: AccountId, k: nat)
    ensures Up(upline, a, k + 1) == Up(upline, upline(a), k)
  {
    if k > 0 {
      OneStepUp(upline, a, k - 1);
    }
  }

  lemma {:induction false} OneLevelOn(level: nat, n: nat)
    ensures LevelAfter(level, n + 1) == LevelAfter(NextLevel(level), n)
  {
    if n > 0 {
      OneLevelOn(level, n - 1);
    }
  }
}
