/** Google Test's shuffle of a range of a vector: which orders the random choices lead to. */
module Shuffling {

  const MAX_RANGE: nat := 0x8000_0000

  /** The linear congruential generator. */
  class Random {
    var state: nat

    constructor (seed: nat)
      requires seed < 0x1_0000_0000
      ensures state == seed
    {
      state := seed;
    }

    /** The C++ crashes on a range that is zero or too large. */
    method Generate(range: nat) returns (r: nat)
      requires 0 < range <= MAX_RANGE
      modifies this
      ensures state == (1103515245 * old(state) + 12345) % 0x1_0000_0000 % MAX_RANGE
      ensures r == state % range && r < range
    {
      state := (1103515245 * state + 12345) % 0x1_0000_0000 % MAX_RANGE;
      r := state % range;
    }
  }

  function Swap<E>(s: seq<E>, i: nat, j: nat): seq<E>
    requires i < |s| && j < |s|
  {
    s[i := s[j]][j := s[i]]
  }

  /** One choice for each width from `width` down to two, below that width. */
  predicate AreChoices(choices: seq<nat>, width: nat) {
    if width < 2 then choices == []
    else choices != [] && choices[0] < width && AreChoices(choices[1..], width - 1)
  }

  /** The order that the choices lead to. */
  function Shuffled<E>(s: seq<E>, begin: nat, width: nat, choices: seq<nat>): (t: seq<E>)
    requires begin + width <= |s| && AreChoices(choices, width)
    ensures |t| == |s|
    decreases width
  {
    if width < 2 then s
    else Shuffled(Swap(s, begin + choices[0], begin + width - 1), begin, width - 1, choices[1..])
  }

  /** The generator runs through `states`, and what it draws for the widths from `width` down is
      `choices`. */
  predicate AreDraws(states: seq<nat>, choices: seq<nat>, width: nat) {
    && |states| == |choices| + 1 && |choices| <= width
    && forall k :: 0 <= k < |choices| ==> IsDraw(states[k], states[k + 1], choices[k], width - k)
  }

  predicate IsDraw(state: nat, next: nat, choice: nat, range: nat)
    requires range > 0
  {
    next == (1103515245 * state + 12345) % 0x1_0000_0000 % MAX_RANGE && choice == next % range
  }

  lemma OneDrawMore(states: seq<nat>, choices: seq<nat>, width: nat, next: nat, choice: nat)
    requires AreDraws(states, choices, width) && |choices| < width
    requires IsDraw(states[|choices|], next, choice, width - |choices|)
    ensures AreDraws(states + [next], choices + [choice], width)
  {
    var longer, more := states + [next], choices + [choice];
    forall k | 0 <= k < |more|
      ensures IsDraw(longer[k], longer[k + 1], more[k], width - k)
    {
      assert k < |choices| ==> IsDraw(states[k], states[k + 1], choices[k], width - k);
    }
  }

  method ShuffleRange<E>(random: Random, begin: int, end: int, v: array<E>)
    returns (ok: bool, ghost choices: seq<nat>, ghost states: seq<nat>)
    requires v.Length < MAX_RANGE
    modifies random, v
    ensures ok <==> 0 <= begin <= end <= v.Length
    ensures !ok ==> v[..] == old(v[..]) && random.state == old(random.state)
    ensures ok ==> AreChoices(choices, end - begin) && v[..] == Shuffled(old(v[..]), begin, end - begin, choices)
    ensures ok ==>
              && AreDraws(states, choices, end - begin)
              && states[0] == old(random.state) && random.state == states[|choices|]
  {
    choices, states := [], [random.state];
    var size := v.Length;
    if !(0 <= begin <= size) || !(begin <= end <= size) {
      return false, choices, states;
    }
    ghost var s := v[..];
    ghost var current := s;
    var rangeWidth := end - begin;
    NothingChosenYet(s, begin, rangeWidth);
    while rangeWidth >= 2
      invariant 0 <= rangeWidth <= end - begin
      invariant v[..] == current
      invariant AllLeadOn(s, begin, end - begin, choices, current, rangeWidth)
      invariant |choices| == end - begin - rangeWidth
      invariant AreDraws(states, choices, end - begin)
      invariant states[0] == old(random.state) && random.state == states[|choices|]
    {
      var lastInRange := begin + rangeWidth - 1;
      var choice := random.Generate(rangeWidth);
      var selected := begin + choice;
      v[selected], v[lastInRange] := v[lastInRange], v[selected];
      ghost var before, chosen := current, choices;
      current := Swap(before, selected, lastInRange);
      OneDrawMore(states, chosen, end - begin, random.state, choice);
      choices, states := chosen + [choice], states + [random.state];
      OneChoiceLeadsOn(s, begin, end - begin, chosen, before, rangeWidth, choice, choices, current);
      rangeWidth := rangeWidth - 1;
    }
    NoChoiceIsLeft(s, begin, end - begin, choices, current, rangeWidth);
    return true, choices, states;
  }

  /** So the order depends on the state of the generator alone. */
  lemma {:induction false} DrawsAreUnique(states: seq<nat>, choices: seq<nat>, states': seq<nat>, choices': seq<nat>,
                                          width: nat)
    requires AreDraws(states, choices, width) && AreDraws(states', choices', width)
    requires |choices| == |choices'| && states[0] == states'[0]
    ensures states == states' && choices == choices'
  {
    var n := |choices|;
    if n == 0 {
      assert states == [states[0]] && states' == [states'[0]];
    } else {
      DrawsAreUnique(states[..n], choices[..n - 1], states'[..n], choices'[..n - 1], width);
      assert states[n - 1] == states[..n][n - 1] && states'[n - 1] == states'[..n][n - 1];
      assert states == states[..n] + [states[n]] && choices == choices[..n - 1] + [choices[n - 1]];
      assert states' == states'[..n] + [states'[n]] && choices' == choices'[..n - 1] + [choices'[n - 1]];
    }
  }

  /** Seed 1 turns [1, 2, 3] round. */
  lemma OrderOfSeedOne(states: seq<nat>, choices: seq<nat>)
    requires AreDraws(states, choices, 3) && |choices| == 2 && states[0] == 1
    ensures choices == [0, 1] && Shuffled([1, 2, 3], 0, 3, choices) == [3, 2, 1]
  {
    assert IsDraw(states[0], states[1], choices[0], 3) && IsDraw(states[1], states[2], choices[1], 2);
    assert choices == [0, 1];
    OrderOfChoices();
  }

  lemma OrderOfChoices()
    ensures AreChoices([0, 1], 3) && Shuffled([1, 2, 3], 0, 3, [0, 1]) == [3, 2, 1]
  {
    assert [0, 1][1..] == [1] && [1][1..] == [];
    assert Swap([1, 2, 3], 0, 2) == [3, 2, 1] && Swap([3, 2, 1], 1, 1) == [3, 2, 1];
  }

  /** Having come from `s` to `t` by `chosen`, any further choices lead from `t` to where they all
      lead together. */
  ghost predicate AllLeadOn<E>(s: seq<E>, begin: nat, width: nat, chosen: seq<nat>, t: seq<E>, left: nat)
    requires begin + width <= |s| && begin + left <= |t|
  {
    forall more: seq<nat> :: AreChoices(more, left) ==>
      AreChoices(chosen + more, width) && Shuffled(t, begin, left, more) == Shuffled(s, begin, width, chosen + more)
  }

  lemma NothingChosenYet<E>(s: seq<E>, begin: nat, width: nat)
    requires begin + width <= |s|
    ensures AllLeadOn(s, begin, width, [], s, width)
  {
    forall more: seq<nat> | AreChoices(more, width)
      ensures AreChoices([] + more, width)
      ensures Shuffled(s, begin, width, more) == Shuffled(s, begin, width, [] + more)
    {
      assert [] + more == more;
    }
  }

  lemma OneChoiceLeadsOn<E>(s: seq<E>, begin: nat, width: nat, chosen: seq<nat>, t: seq<E>, left: nat, choice: nat,
                             nextChosen: seq<nat>, next: seq<E>)
    requires begin + width <= |s| && begin + left <= |t| && left >= 2 && choice < left
    requires nextChosen == chosen + [choice] && next == Swap(t, begin + choice, begin + left - 1)
    requires AllLeadOn(s, begin, width, chosen, t, left)
    ensures AllLeadOn(s, begin, width, nextChosen, next, left - 1)
  {
    forall more: seq<nat> | AreChoices(more, left - 1)
      ensures AreChoices(nextChosen + more, width)
      ensures Shuffled(next, begin, left - 1, more) == Shuffled(s, begin, width, nextChosen + more)
    {
      assert ([choice] + more)[1..] == more;
      assert AreChoices([choice] + more, left);
      assert chosen + ([choice] + more) == nextChosen + more;
    }
  }

  lemma NoChoiceIsLeft<E>(s: seq<E>, begin: nat, width: nat, chosen: seq<nat>, t: seq<E>, left: nat)
    requires begin + width <= |s| && begin + left <= |t| && left < 2
    requires AllLeadOn(s, begin, width, chosen, t, left)
    ensures AreChoices(chosen, width) && t == Shuffled(s, begin, width, chosen)
  {
    var none: seq<nat> := [];
    assert AreChoices(none, left);
    assert chosen + none == chosen;
  }

  // ----- Every result is a rearrangement of the range ------------------------------------------------

  /** `t` has the elements of `s` in [begin, end), in any order, and agrees with `s` elsewhere. */
  ghost predicate IsRearrangement<E>(s: seq<E>, t: seq<E>, begin: nat, end: nat)
    requires begin <= end <= |s|
  {
    && |t| == |s|
    && t[..begin] == s[..begin] && t[end..] == s[end..]
    && multiset(t[begin..end]) == multiset(s[begin..end])
  }

  lemma SwapKeepsElements<E>(s: seq<E>, begin: nat, i: nat, last: nat)
    requires begin <= i <= last < |s|
    ensures IsRearrangement(s, Swap(s, i, last), begin, last + 1)
    ensures multiset(s[begin..last + 1]) == multiset(Swap(s, i, last)[begin..last]) + multiset{s[i]}
  {
    var t := Swap(s, i, last);
    var r, q := s[begin..last + 1], t[begin..last + 1];
    assert q == r[i - begin := s[last]][last - begin := s[i]];
    assert multiset(q) == multiset(r);
    assert q == t[begin..last] + [s[i]];
  }

  lemma {:induction false} ShuffledIsRearrangement<E>(s: seq<E>, begin: nat, width: nat, choices: seq<nat>)
    requires begin + width <= |s| && AreChoices(choices, width)
    ensures IsRearrangement(s, Shuffled(s, begin, width, choices), begin, begin + width)
    decreases width
  {
    if width >= 2 {
      var u := Swap(s, begin + choices[0], begin + width - 1);
      ShuffledIsRearrangement(u, begin, width - 1, choices[1..]);
      RearrangedBehindSwap(s, begin, width, choices[0], Shuffled(s, begin, width, choices));
    }
  }

  lemma RearrangedBehindSwap<E>(s: seq<E>, begin: nat, width: nat, choice: nat, t: seq<E>)
    requires begin + width <= |s| && choice < width
    requires IsRearrangement(Swap(s, begin + choice, begin + width - 1), t, begin, begin + (width - 1))
    ensures IsRearrangement(s, t, begin, begin + width)
  {
    var last := begin + width - 1;
    var u := Swap(s, begin + choice, last);
    SwapKeepsElements(s, begin, begin + choice, last);
    WidenRearrangement(u, t, begin, last);
    RearrangementsCompose(s, u, t, begin, last + 1);
  }

  lemma RearrangementsCompose<E>(s: seq<E>, u: seq<E>, t: seq<E>, begin: nat, end: nat)
    requires begin <= end <= |s| && IsRearrangement(s, u, begin, end) && IsRearrangement(u, t, begin, end)
    ensures IsRearrangement(s, t, begin, end)
  {
  }

  lemma WidenRearrangement<E>(s: seq<E>, t: seq<E>, begin: nat, last: nat)
    requires begin <= last < |s| && IsRearrangement(s, t, begin, last)
    ensures t[last] == s[last] && IsRearrangement(s, t, begin, last + 1)
  {
    assert t[last..][0] == s[last..][0];
    assert t[begin..last + 1] == t[begin..last] + [t[last]];
    assert s[begin..last + 1] == s[begin..last] + [s[last]];
    assert t[last + 1..] == t[last..][1..] && s[last + 1..] == s[last..][1..];
  }

  // ----- Choices and rearrangements correspond ---------------------------------------------------------

  ghost predicate Distinct<E>(s: seq<E>, begin: nat, end: nat)
    requires begin <= end <= |s|
  {
    forall i, j :: begin <= i < j < end ==> s[i] != s[j]
  }

  /** The last element of the range is settled by the first choice. */
  lemma LastIsFirstChoice<E>(s: seq<E>, begin: nat, width: nat, choices: seq<nat>)
    requires width >= 2 && begin + width <= |s| && AreChoices(choices, width)
    ensures Shuffled(s, begin, width, choices)[begin + width - 1] == s[begin + choices[0]]
  {
    var u := Swap(s, begin + choices[0], begin + width - 1);
    assert u[begin + width - 1] == s[begin + choices[0]];
    EndOfShuffledIsKept(u, begin, width - 1, choices[1..]);
  }

  lemma EndOfShuffledIsKept<E>(s: seq<E>, begin: nat, width: nat, choices: seq<nat>)
    requires begin + width < |s| && AreChoices(choices, width)
    ensures Shuffled(s, begin, width, choices)[begin + width] == s[begin + width]
  {
    ShuffledIsRearrangement(s, begin, width, choices);
    EndIsKept(s, Shuffled(s, begin, width, choices), begin, begin + width);
  }

  lemma EndIsKept<E>(s: seq<E>, t: seq<E>, begin: nat, end: nat)
    requires begin <= end < |s| && IsRearrangement(s, t, begin, end)
    ensures t[end] == s[end]
  {
    assert t[end..][0] == s[end..][0];
  }

  /** Different choices lead to different orders. */
  lemma {:induction false} ShuffledIsInjective<E>(s: seq<E>, begin: nat, width: nat, c: seq<nat>, d: seq<nat>)
    requires begin + width <= |s| && Distinct(s, begin, begin + width) && AreChoices(c, width) && AreChoices(d, width)
    requires Shuffled(s, begin, width, c) == Shuffled(s, begin, width, d)
    ensures c == d
    decreases width
  {
    if width >= 2 {
      LastIsFirstChoice(s, begin, width, c);
      LastIsFirstChoice(s, begin, width, d);
      assert c[0] == d[0];
      var u := Swap(s, begin + c[0], begin + width - 1);
      ShuffledIsInjective(u, begin, width - 1, c[1..], d[1..]);
      assert c == [c[0]] + c[1..] && d == [d[0]] + d[1..];
    }
  }

  /** Every rearrangement is reached; for that the elements need not even be distinct. */
  lemma {:induction false} ShuffledIsSurjective<E>(s: seq<E>, t: seq<E>, begin: nat, width: nat)
    returns (choices: seq<nat>)
    requires begin + width <= |s| && IsRearrangement(s, t, begin, begin + width)
    ensures LeadsTo(s, begin, width, choices, t)
    decreases width
  {
    if width < 2 {
      choices := [];
      ShortRangeIsFixed(s, t, begin, width);
    } else {
      var last := begin + width - 1;
      var choice := ChoiceFor(s, t, begin, last);
      var more := ShuffledIsSurjective(Swap(s, begin + choice, last), t, begin, width - 1);
      ChooseFirst(s, begin, width, choice, more, t);
      choices := [choice] + more;
    }
  }

  /** The choice that puts into the last place what belongs there. */
  lemma ChoiceFor<E>(s: seq<E>, t: seq<E>, begin: nat, last: nat) returns (choice: nat)
    requires begin <= last < |s| && IsRearrangement(s, t, begin, last + 1)
    ensures begin + choice <= last && IsRearrangement(Swap(s, begin + choice, last), t, begin, last)
  {
    choice := FindInRange(s, t, begin, last);
    SwapKeepsElements(s, begin, begin + choice, last);
    NarrowRearrangement(s, t, Swap(s, begin + choice, last), begin, last);
  }

  ghost predicate LeadsTo<E>(s: seq<E>, begin: nat, width: nat, choices: seq<nat>, t: seq<E>)
    requires begin + width <= |s|
  {
    AreChoices(choices, width) && Shuffled(s, begin, width, choices) == t
  }

  lemma ChooseFirst<E>(s: seq<E>, begin: nat, width: nat, choice: nat, more: seq<nat>, t: seq<E>)
    requires width >= 2 && begin + width <= |s| && choice < width
    requires LeadsTo(Swap(s, begin + choice, begin + width - 1), begin, width - 1, more, t)
    ensures LeadsTo(s, begin, width, [choice] + more, t)
  {
    assert ([choice] + more)[1..] == more;
  }

  lemma ShortRangeIsFixed<E>(s: seq<E>, t: seq<E>, begin: nat, width: nat)
    requires width < 2 && begin + width <= |s| && IsRearrangement(s, t, begin, begin + width)
    ensures s == t
  {
    if width == 1 {
      assert s[begin..begin + 1] == [s[begin]] && t[begin..begin + 1] == [t[begin]];
      assert multiset([t[begin]])[t[begin]] == 1;
      assert t[begin] in multiset([s[begin]]);
    }
    assert s == s[..begin] + s[begin..begin + width] + s[begin + width..];
    assert t == t[..begin] + t[begin..begin + width] + t[begin + width..];
  }

  lemma FindInRange<E>(s: seq<E>, t: seq<E>, begin: nat, last: nat) returns (choice: nat)
    requires begin <= last < |s| && IsRearrangement(s, t, begin, last + 1)
    ensures begin + choice <= last && s[begin + choice] == t[last]
  {
    assert t[begin..last + 1][last - begin] == t[last];
    assert t[last] in multiset(t[begin..last + 1]);
    assert t[last] in s[begin..last + 1];
    choice :| 0 <= choice < last + 1 - begin && s[begin..last + 1][choice] == t[last];
  }

  lemma NarrowRearrangement<E>(s: seq<E>, t: seq<E>, u: seq<E>, begin: nat, last: nat)
    requires begin <= last < |s| && IsRearrangement(s, t, begin, last + 1) && IsRearrangement(s, u, begin, last + 1)
    requires u[last] == t[last]
    ensures IsRearrangement(u, t, begin, last)
  {
    assert u[begin..last + 1] == u[begin..last] + [u[last]];
    assert t[begin..last + 1] == t[begin..last] + [t[last]];
    assert multiset(u[begin..last]) == multiset(u[begin..last + 1]) - multiset{u[last]};
    assert multiset(t[begin..last]) == multiset(t[begin..last + 1]) - multiset{u[last]};
    assert u[last..] == [u[last]] + u[last + 1..];
    assert t[last..] == [t[last]] + t[last + 1..];
  }

  /** On a range of distinct elements, the choices correspond one to one to the rearrangements of
      the range. */
  lemma ShuffledIsBijective<E>(s: seq<E>, begin: nat, width: nat, t: seq<E>)
    requires begin + width <= |s| && Distinct(s, begin, begin + width)
    ensures IsRearrangement(s, t, begin, begin + width) <==> exists c :: LeadsTo(s, begin, width, c, t)
    ensures forall c, d :: LeadsTo(s, begin, width, c, t) && LeadsTo(s, begin, width, d, t) ==> c == d
  {
    if IsRearrangement(s, t, begin, begin + width) {
      var c := ShuffledIsSurjective(s, t, begin, width);
    }
    if c :| LeadsTo(s, begin, width, c, t) {
      ShuffledIsRearrangement(s, begin, width, c);
    }
    forall c, d | LeadsTo(s, begin, width, c, t) && LeadsTo(s, begin, width, d, t)
      ensures c == d
    {
      ShuffledIsInjective(s, begin, width, c, d);
    }
  }
}
