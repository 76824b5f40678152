/** `calculate_win` of win_calculator.py: the slot machine's payout for one spin, from the
    icons shown on the five reels, the bet and the player's credits. */
module WinCalculator {
  import opened Wrappers

  /** A reel icon, named by its image file. */
  type Icon = string

  /** The tiers of `payOutTable`: payout multipliers keyed by icon. */
  const ThreeInARow: map<Icon, int> := map[
    "reel_icon_9.png" := 2, "reel_icon_8.png" := 3, "reel_icon_7.png" := 4,
    "reel_icon_6.png" := 5, "reel_icon_5.png" := 10, "reel_icon_4.png" := 15,
    "reel_icon_3.png" := 15, "reel_icon_2.png" := 40, "reel_icon_1.png" := 100]
  const FourInARow: map<Icon, int> := map[
    "reel_icon_9.png" := 15, "reel_icon_8.png" := 20, "reel_icon_7.png" := 20,
    "reel_icon_6.png" := 40, "reel_icon_5.png" := 40, "reel_icon_4.png" := 80,
    "reel_icon_3.png" := 80, "reel_icon_2.png" := 200, "reel_icon_1.png" := 500]
  const FiveInARow: map<Icon, int> := map[
    "reel_icon_9.png" := 25, "reel_icon_8.png" := 30, "reel_icon_7.png" := 30,
    "reel_icon_6.png" := 75, "reel_icon_5.png" := 75, "reel_icon_4.png" := 150,
    "reel_icon_3.png" := 150, "reel_icon_2.png" := 300, "reel_icon_1.png" := 1000]
  const InAnyReel: map<Icon, int> := map["reel_icon_9.png" := 1]

  /** `payOutTable` itself, keyed by tier name. */
  const PayOutTable: map<string, map<Icon, int>> := map[
    "Three In A Row" := ThreeInARow, "Four In A Row" := FourInARow,
    "Five In A Row" := FiveInARow, "In Any Reel" := InAnyReel]

  /** The icon that pays wherever it shows, and its multiplier. */
  const SpecialIcon: Icon := "reel_icon_9.png"
  const SpecialIconPayout: int := 1

  /** The "In Any Reel" table holds the special icon alone, so taking its first key
      (`next(iter(...))`) yields that icon and its payout. */
  lemma SpecialIconIsOnlyKey()
    ensures PayOutTable["In Any Reel"].Keys == {SpecialIcon}
    ensures PayOutTable["In Any Reel"][SpecialIcon] == SpecialIconPayout
    ensures InAnyReel == PayOutTable["In Any Reel"]
  {
  }

  /** `table.get(icon, 0)` */
  function Get(table: map<Icon, int>, icon: Icon): (r: int)
    ensures icon !in table ==> r == 0
    ensures icon in table ==> r == table[icon]
  {
    if icon in table then table[icon] else 0
  }

  /** The multiplier a run of `run` equal icons starting on the first reel earns: nothing below
      three, then the three-, four- and five-in-a-row tiers. */
  function RunPayout(run: nat, icon: Icon): int
  {
    if run < 3 then 0
    else if run == 3 then Get(ThreeInARow, icon)
    else if run == 4 then Get(FourInARow, icon)
    else Get(FiveInARow, icon)
  }

  /** Every tier pays at least as much as the shorter one, for every icon, and no payout is
      negative. */
  lemma LongerRunsPayMore(icon: Icon, shorter: nat, longer: nat)
    requires shorter <= longer
    ensures 0 <= RunPayout(shorter, icon) <= RunPayout(longer, icon)
  {
  }

  /** k is the length of the run of icons equal to the first, counted up to the fifth reel. */
  ghost predicate IsRun(results: seq<Icon>, k: nat)
  {
    && 1 <= k <= 5 && k <= |results|
    && (forall i :: 0 <= i < k ==> results[i] == results[0])
    && (k < 5 && k < |results| ==> results[k] != results[0])
  }

  /** A non-empty spin has exactly one run length. */
  lemma {:induction false} RunExists(results: seq<Icon>, k: nat)
    requires 1 <= k <= 5 && k <= |results|
    requires forall i :: 0 <= i < k ==> results[i] == results[0]
    ensures exists run :: IsRun(results, run)
    decreases 5 - k
  {
    if k < 5 && k < |results| && results[k] == results[0] {
      RunExists(results, k + 1);
    } else {
      assert IsRun(results, k);
    }
  }

  lemma RunUnique(results: seq<Icon>, k1: nat, k2: nat)
    requires IsRun(results, k1) && IsRun(results, k2)
    ensures k1 == k2
  {
  }

  /** The three/four/five-in-a-row check of lines 60-65. Python's chained comparison reads
      `results[0]`, `results[1]` and, only when those two are equal, `results[2]`; reading past the
      end raises `IndexError`, modelled as None. */
  function LineWin(results: seq<Icon>, bet: int): (r: Option<int>)
    ensures r.None? <==> |results| < 2 || (|results| == 2 && results[0] == results[1])
    ensures r.Some? ==> forall k :: IsRun(results, k) ==> r.value == RunPayout(k, results[0]) * bet
  {
    if |results| < 2 then None
    else if results[0] != results[1] then Some(0)
    else if |results| < 3 then None
    else if results[1] != results[2] then Some(0)
    else
      var threeInARow := Get(ThreeInARow, results[0]) * bet;
      if |results| > 3 && results[3] == results[0] then
        var fourInARow := Get(FourInARow, results[0]) * bet;
        if |results| > 4 && results[4] == results[0] then
          Some(Get(FiveInARow, results[0]) * bet)
        else Some(fourInARow)
      else Some(threeInARow)
  }

  /** Python's `results[lo:hi]`: slicing clamps to the list and never raises. */
  function Slice(results: seq<Icon>, lo: nat, hi: nat): (s: seq<Icon>)
    requires lo <= hi
    ensures forall x :: x in s <==> exists i :: lo <= i < hi && i < |results| && results[i] == x
  {
    var a := if lo < |results| then lo else |results|;
    var b := if hi < |results| then hi else |results|;
    var s := results[a..b];
    assert forall i :: a <= i < b ==> results[i] == s[i - a];
    s
  }

  /** The special-icon bonus of lines 67-85, by bet. */
  function Bonus(results: seq<Icon>, bet: int): (b: int)
    ensures bet != 3 && bet != 6 && bet != 9 ==> b == 0
  {
    var firstThree := SpecialIcon in Slice(results, 0, 3);
    if bet == 3 then
      if firstThree then SpecialIconPayout * bet else 0
    else if bet == 6 then
      if firstThree && SpecialIcon in Slice(results, 3, 4) then 2 * SpecialIconPayout * bet
      else if SpecialIcon in Slice(results, 0, 4) then SpecialIconPayout * bet
      else 0
    else if bet == 9 then
      if firstThree && SpecialIcon in Slice(results, 3, 4) && SpecialIcon in Slice(results, 4, 5) then
        4 * SpecialIconPayout * bet
      else if (firstThree && SpecialIcon in Slice(results, 3, 5)) || (SpecialIcon in Slice(results, 3, 5) && firstThree) then
        2 * SpecialIconPayout * bet
      else if SpecialIcon in Slice(results, 0, 5) then SpecialIconPayout * bet
      else 0
    else 0
  }

  /** Whether reel i shows the special icon (false past the last reel). */
  predicate ShowsSpecial(results: seq<Icon>, i: nat)
  {
    i < |results| && results[i] == SpecialIcon
  }

  /** The number of reels among the fourth and fifth that a bet activates: one more per 3 bet
      beyond the first 3. */
  function ExtraReels(bet: int): nat
  {
    if bet == 6 then 1 else if bet == 9 then 2 else 0
  }

  /** How many of the active extra reels show the special icon. */
  function ExtraHits(results: seq<Icon>, bet: int): (n: nat)
    ensures n <= ExtraReels(bet)
  {
    (if ExtraReels(bet) >= 1 && ShowsSpecial(results, 3) then 1 else 0)
    + (if ExtraReels(bet) >= 2 && ShowsSpecial(results, 4) then 1 else 0)
  }

  /** The bonus read as a rule: for bets 3, 6 and 9, the special icon on one of the first three
      reels pays the bet, doubled for every active extra reel also showing it; without it on the
      first three reels, a hit on an active extra reel pays the bet once. */
  function ReferenceBonus(results: seq<Icon>, bet: int): int
  {
    var firstThree := ShowsSpecial(results, 0) || ShowsSpecial(results, 1) || ShowsSpecial(results, 2);
    if bet != 3 && bet != 6 && bet != 9 then 0
    else if firstThree then (if ExtraHits(results, bet) == 2 then 4 else if ExtraHits(results, bet) == 1 then 2 else 1) * SpecialIconPayout * bet
    else if ExtraHits(results, bet) > 0 then SpecialIconPayout * bet
    else 0
  }

  /** The cascade of conditions in the source computes the doubling rule. */
  lemma BonusMatchesRule(results: seq<Icon>, bet: int)
    ensures Bonus(results, bet) == ReferenceBonus(results, bet)
  {
    var s := SpecialIcon;
    assert s in Slice(results, 0, 3) <==> ShowsSpecial(results, 0) || ShowsSpecial(results, 1) || ShowsSpecial(results, 2);
    assert s in Slice(results, 3, 4) <==> ShowsSpecial(results, 3);
    assert s in Slice(results, 4, 5) <==> ShowsSpecial(results, 4);
    assert s in Slice(results, 3, 5) <==> ShowsSpecial(results, 3) || ShowsSpecial(results, 4);
    assert s in Slice(results, 0, 4) <==> s in Slice(results, 0, 3) || ShowsSpecial(results, 3);
    assert s in Slice(results, 0, 5) <==> s in Slice(results, 0, 3) || ShowsSpecial(results, 3) || ShowsSpecial(results, 4);
  }

  /** For bets 3, 6 and 9 the bonus is zero exactly when no active reel shows the special icon. */
  lemma NoBonusIffNoSpecialIcon(results: seq<Icon>, bet: int)
    requires bet == 3 || bet == 6 || bet == 9
    ensures Bonus(results, bet) == 0 <==>
      forall i :: 0 <= i < 3 + ExtraReels(bet) ==> !ShowsSpecial(results, i)
  {
    BonusMatchesRule(results, bet);
    if Bonus(results, bet) == 0 {
      forall i | 0 <= i < 3 + ExtraReels(bet)
        ensures !ShowsSpecial(results, i)
      {
        assert i == 0 || i == 1 || i == 2 || i == 3 || i == 4;
      }
    }
  }

  /** Showing the special icon on one more reel never lowers the bonus of a non-negative bet. */
  lemma MoreSpecialIconsNeverPayLess(results: seq<Icon>, i: nat, bet: int)
    requires i < |results| && bet >= 0
    ensures Bonus(results, bet) <= Bonus(results[i := SpecialIcon], bet)
  {
    var after := results[i := SpecialIcon];
    BonusMatchesRule(results, bet);
    BonusMatchesRule(after, bet);
    assert forall j :: ShowsSpecial(results, j) ==> ShowsSpecial(after, j);
  }

  /** Reels past the fifth never change the bonus. */
  lemma BonusIgnoresLaterReels(results: seq<Icon>, bet: int)
    requires |results| > 5
    ensures Bonus(results, bet) == Bonus(results[..5], bet)
  {
    BonusMatchesRule(results, bet);
    BonusMatchesRule(results[..5], bet);
    assert forall j :: j < 5 ==> (ShowsSpecial(results, j) <==> ShowsSpecial(results[..5], j));
  }

  /** `calculate_win`: returns the win and the updated credits. A negative credit balance (the
      `credits + bet_amount < bet_amount` guard) and a spin too short to index both yield
      `(0, credits)`. */
  function CalculateWin(results: seq<Icon>, betAmount: int, credits: int): (r: (int, int))
    ensures r.1 == credits + r.0
    ensures credits < 0 ==> r.0 == 0
    ensures credits >= 0 && LineWin(results, betAmount).None? ==> r.0 == 0
    ensures credits >= 0 && LineWin(results, betAmount).Some? ==>
              r.0 == LineWin(results, betAmount).value + Bonus(results, betAmount)
  {
    if credits + betAmount < betAmount then (0, credits)
    else
      match LineWin(results, betAmount)
      case None => (0, credits)
      case Some(line) =>
        var win := line + Bonus(results, betAmount);
        (win, credits + win)
  }

  /** A non-negative bet never earns a negative line win. */
  lemma LineWinNonNegative(results: seq<Icon>, betAmount: int)
    requires betAmount >= 0 && LineWin(results, betAmount).Some?
    ensures LineWin(results, betAmount).value >= 0
  {
    RunExists(results, 1);
    var k :| IsRun(results, k);
    LongerRunsPayMore(results[0], 0, k);
  }

  /** A non-negative bet never wins a negative amount, so credits never go down. */
  lemma WinNeverNegative(results: seq<Icon>, betAmount: int, credits: int)
    requires betAmount >= 0
    ensures CalculateWin(results, betAmount, credits).0 >= 0
    ensures CalculateWin(results, betAmount, credits).1 >= credits
  {
    if credits >= 0 && LineWin(results, betAmount).Some? {
      LineWinNonNegative(results, betAmount);
      BonusMatchesRule(results, betAmount);
    }
  }

  /** Swapping two of the first three reels of a full spin. */
  function SwapFirstThree(results: seq<Icon>, i: nat, j: nat): (s: seq<Icon>)
    requires |results| >= 3 && i < 3 && j < 3
    ensures |s| == |results| && s[i] == results[j] && s[j] == results[i]
    ensures forall k :: 0 <= k < |results| && k != i && k != j ==> s[k] == results[k]
  {
    results[i := results[j]][j := results[i]]
  }

  /** The line win sees the first three reels only as "all equal or not". */
  lemma LineWinFirstThreeOrderIrrelevant(results: seq<Icon>, i: nat, j: nat, betAmount: int)
    requires |results| >= 3 && i < 3 && j < 3
    ensures LineWin(SwapFirstThree(results, i, j), betAmount) == LineWin(results, betAmount)
  {
    var swapped := SwapFirstThree(results, i, j);
    if results[0] == results[1] == results[2] {
      assert swapped == results;
    } else {
      assert !(swapped[0] == swapped[1] == swapped[2]);
    }
  }

  /** The bonus sees the first three reels only as "does one show the special icon". */
  lemma BonusFirstThreeOrderIrrelevant(results: seq<Icon>, i: nat, j: nat, betAmount: int)
    requires |results| >= 3 && i < 3 && j < 3
    ensures Bonus(SwapFirstThree(results, i, j), betAmount) == Bonus(results, betAmount)
  {
    var swapped := SwapFirstThree(results, i, j);
    BonusMatchesRule(results, betAmount);
    BonusMatchesRule(swapped, betAmount);
    assert ShowsSpecial(swapped, 3) == ShowsSpecial(results, 3);
    assert ShowsSpecial(swapped, 4) == ShowsSpecial(results, 4);
    assert ShowsSpecial(swapped, 0) || ShowsSpecial(swapped, 1) || ShowsSpecial(swapped, 2)
       <==> ShowsSpecial(results, 0) || ShowsSpecial(results, 1) || ShowsSpecial(results, 2);
  }

  /** The first three reels pay the same in any order: swapping two of them keeps the win. */
  lemma FirstThreeOrderIrrelevant(results: seq<Icon>, i: nat, j: nat, betAmount: int, credits: int)
    requires |results| >= 3 && i < 3 && j < 3
    ensures CalculateWin(SwapFirstThree(results, i, j), betAmount, credits)
            == CalculateWin(results, betAmount, credits)
  {
    LineWinFirstThreeOrderIrrelevant(results, i, j, betAmount);
    BonusFirstThreeOrderIrrelevant(results, i, j, betAmount);
    SameLineWinAndBonus(SwapFirstThree(results, i, j), results, betAmount, credits);
  }

  /** The win depends on the spin only through its line win and its bonus. */
  lemma SameLineWinAndBonus(a: seq<Icon>, b: seq<Icon>, betAmount: int, credits: int)
    requires LineWin(a, betAmount) == LineWin(b, betAmount) && Bonus(a, betAmount) == Bonus(b, betAmount)
    ensures CalculateWin(a, betAmount, credits) == CalculateWin(b, betAmount, credits)
  {
  }
}
