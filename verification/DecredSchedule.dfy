/**
 The subsidy schedule of Decred: the base subsidy shrinks by a factor of 100/101
 each interval, and each variant splits it between work, votes and treasury. It
 is one of the schedules on which the total is proved.
 */
module DecredSchedule {
  import opened Subsidy
  import opened Widths

  const VOTES: nat := 5

  /** The base subsidy of interval i. */
  function Base(first: nat, i: nat): nat {
    if i == 0 then first else Base(first, i - 1) * 100 / 101
  }

  /** The shares of work and of votes, in a thousand. */
  function WorkShare(v: Split): nat {
    match v
    case Original => 600
    case Dcp0010 => 100
    case Dcp0012 => 10
  }

  function VoteShare(v: Split): nat {
    match v
    case Original => 300
    case Dcp0010 => 800
    case Dcp0012 => 890
  }

  /** Votes are paid from the stake validation height on. */
  function Decred(first: nat, interval: nat, stakeValidationHeight: nat, blockOne: nat): Network
    requires interval > 0
  {
    Network(VOTES, stakeValidationHeight, interval, blockOne,
            (h: nat, v: Split) => Base(first, h / interval) * WorkShare(v) / 1000,
            (h: nat, v: Split) =>
              if h < stakeValidationHeight then 0 else Base(first, h / interval) * VoteShare(v) / 1000 / VOTES,
            (h: nat) => Base(first, h / interval) / 10)
  }

  function Pays(base: nat, v: Split, voting: bool): nat {
    base * WorkShare(v) / 1000 + (if voting then base * VoteShare(v) / 1000 / VOTES else 0) * VOTES + base / 10
  }

  lemma DecredPays(first: nat, interval: nat, svh: nat, blockOne: nat, h: nat, v: Split)
    requires interval > 0
    ensures BlockSubsidy(Decred(first, interval, svh, blockOne), h, v)
         == Pays(Base(first, h / interval), v, h >= svh)
  {
    hide Base;
  }

  /** The greatest base subsidy of which a variant pays nothing. */
  function Dust(v: Split): nat {
    match v
    case Original => 1
    case Dcp0010 => 6
    case Dcp0012 => 5
  }

  lemma PaysNothingIff(base: nat, v: Split)
    ensures Pays(base, v, true) == 0 <==> base <= Dust(v)
  {
    var work, votes := base * WorkShare(v) / 1000, base * VoteShare(v) / 1000;
    assert Pays(base, v, true) == work + votes / VOTES * VOTES + base / 10;
    assert votes / VOTES == 0 <==> votes < VOTES;
  }

  lemma {:induction false} BaseFalls(first: nat, i: nat, j: nat)
    requires i <= j
    ensures Base(first, j) <= Base(first, i) && (i < j && Base(first, i) > 0 ==> Base(first, j) < Base(first, i))
    decreases j
  {
    if i < j {
      BaseFalls(first, i, j - 1);
    }
  }

  lemma {:induction false} BaseEnds(first: nat, i: nat)
    ensures Base(first, i) + i <= first || Base(first, i) == 0
  {
    if i > 0 {
      BaseEnds(first, i - 1);
    }
  }

  lemma DecredSteps(first: nat, interval: nat, svh: nat, blockOne: nat)
    requires 2 <= svh <= interval && 2 < interval
    ensures Stepwise(Decred(first, interval, svh, blockOne))
  {
    hide BlockSubsidy, Base, Pays;
    var n := Decred(first, interval, svh, blockOne);
    forall h: nat, v | 2 <= h ensures BlockSubsidy(n, h, v) == BlockSubsidy(n, Rung(n, h), v) {
      DecredPays(first, interval, svh, blockOne, h, v);
      DecredPays(first, interval, svh, blockOne, Rung(n, h), v);
      RungKeeps(n, h);
    }
  }

  lemma DecredZeroStays(first: nat, interval: nat, svh: nat, blockOne: nat)
    requires 2 <= svh <= interval && 2 < interval
    ensures ZeroStaysZero(Decred(first, interval, svh, blockOne))
  {
    hide BlockSubsidy, Base, Pays;
    var n := Decred(first, interval, svh, blockOne);
    forall h: nat, v, h': nat, v' | Follows(interval, h, v, h', v') && BlockSubsidy(n, h, v) == 0
      ensures BlockSubsidy(n, h', v') == 0
    {
      DecredPays(first, interval, svh, blockOne, h, v);
      DecredPays(first, interval, svh, blockOne, h', v');
      PaysNothingIff(Base(first, h / interval), v);
      PaysNothingIff(Base(first, h' / interval), v');
      DivMonotone(interval, h, h');
      BaseFalls(first, h / interval, h' / interval);
    }
  }

  lemma DecredEnds(first: nat, interval: nat, svh: nat, blockOne: nat)
    requires 2 <= svh <= interval && 2 < interval && first * interval < MAX_INT64
    ensures EndsWith(Decred(first, interval, svh, blockOne), first + 1)
  {
    hide BlockSubsidy, Base, Pays;
    var n, end := Decred(first, interval, svh, blockOne), (first + 1) * interval;
    Ordered(1, first + 1, interval);
    forall h: nat, v | end <= h ensures BlockSubsidy(n, h, v) == 0 {
      DecredPays(first, interval, svh, blockOne, h, v);
      DivMonotone(interval, end, h);
      IntervalOf(interval, first + 1, end);
      Ordered(first + 1, first + 2, interval);
      BaseEnds(first, h / interval);
      PaysNothingIff(Base(first, h / interval), v);
    }
  }

  /** Every schedule of this form is one on which the total is proved. */
  lemma DecredIsValid(first: nat, interval: nat, svh: nat, blockOne: nat)
    requires 2 <= svh <= interval <= MAX_INT64 && 2 < interval && first * interval < MAX_INT64
    ensures Valid(Decred(first, interval, svh, blockOne))
  {
    hide Stepwise, ZeroStaysZero, EndsWith;
    DecredSteps(first, interval, svh, blockOne);
    DecredZeroStays(first, interval, svh, blockOne);
    DecredEnds(first, interval, svh, blockOne);
  }

  /** The parameters of the main network. */
  const MAIN_NET: Network := Decred(3119582664, 6144, 4096, 168000000000000)

  lemma MainNetIsValid()
    ensures Valid(MAIN_NET)
  {
    DecredIsValid(3119582664, 6144, 4096, 168000000000000);
  }

  /** A base subsidy of 6 pays nothing under DCP0010 and something under DCP0012, so no variant speaks for all. */
  lemma VariantsEndApart()
    ensures Pays(6, Dcp0010, true) == 0 < Pays(6, Dcp0012, true)
  {
    PaysNothingIff(6, Dcp0010);
    PaysNothingIff(6, Dcp0012);
  }

  /** What a block of the first interval pays on the main network once there are votes, in atoms. */
  lemma MainNetPays()
    ensures BlockSubsidy(MAIN_NET, 4096, Original) == 1871749598 + 5 * 187174959 + 311958266
    ensures BlockSubsidy(MAIN_NET, 4096, Dcp0010) == 311958266 + 5 * 499133226 + 311958266
    ensures BlockSubsidy(MAIN_NET, 4096, Dcp0012) == 31195826 + 5 * 555285714 + 311958266
    ensures BlockSubsidy(MAIN_NET, 6144, Original) == 1853217423 + 5 * 185321742 + 308869570
  {
    assert 4096 / 6144 == 0 && 6144 / 6144 == 1;
    assert Base(3119582664, 0) == 3119582664;
    assert Base(3119582664, 1) == 3088695706;
  }
}
