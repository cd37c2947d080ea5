/** TOTP validation with a replay floor (internal/mfa/totp.go, `Validate`) and the logins that carry
    the floor forward (internal/server/session.go, `confirmEnroll` and `mfaVerify`; RFC 6238
    section 5.2). Code generation is any function of secret and step that may reject the secret. */
module Totp {
  import opened Prelude
  import Text

  const PERIOD := 30
  const TWO64 := 0x1_0000_0000_0000_0000

  type Generator = int -> Option<string>

  /** Go's integer division, which truncates toward zero. */
  function Truncated(a: int, b: int): int
    requires b > 0
  {
    if a >= 0 then a / b else -((-a) / b)
  }

  /** The uint64 step counter of a Unix time in seconds. */
  function CurrentStep(unix: int): (s: int)
    ensures 0 <= s < TWO64
  {
    Truncated(unix, PERIOD) % TWO64
  }

  const MIN64 := -0x8000_0000_0000_0000
  const MAX64 := 0x7FFF_FFFF_FFFF_FFFF

  /** Of all int64 clock readings, those whose counter wraps to the top are the 30 seconds that end 30
      seconds before 1970. */
  lemma CounterWrapsIff(unix: int)
    requires MIN64 <= unix <= MAX64
    ensures CurrentStep(unix) == TWO64 - 1 <==> -60 < unix <= -30
  {
    var q := Truncated(unix, PERIOD);
    if unix >= 0 {
      assert 0 <= q <= unix;
      assert q % TWO64 == q;
    } else {
      assert -TWO64 < q <= 0;
      assert q == -1 <==> 30 <= -unix < 60;
      assert q < 0 ==> q % TWO64 == q + TWO64;
    }
  }

  datatype Verdict = Accepted(step: int) | Refused | Broken

  /** The steps looked at, newest first. */
  function Candidates(current: int): seq<int> {
    if current == 0 then [(current + 1) % TWO64, current]
    else [(current + 1) % TWO64, current, current - 1]
  }

  /** The secret yields a code for every step. */
  ghost predicate Usable(gen: Generator) { forall step :: gen(step).Some? }

  function Search(gen: Generator, code: string, floor: int, cands: seq<int>): Verdict {
    if cands == [] then Refused
    else if gen(cands[0]).None? then Broken
    else if gen(cands[0]).value == Text.TrimSpace(code) then (if cands[0] <= floor then Refused else Accepted(cands[0]))
    else Search(gen, code, floor, cands[1..])
  }

  method Validate(gen: Generator, code: string, floor: int, unix: int) returns (v: Verdict)
    ensures v == Search(gen, code, floor, Candidates(CurrentStep(unix)))
  {
    var trimmed := Text.TrimSpace(code);
    var current := CurrentStep(unix);
    var offsets := [1, 0, -1];
    var i := 0;
    ghost var cands := Candidates(current);
    while i < |offsets|
      invariant 0 <= i <= |offsets|
      invariant i < 3 ==> Search(gen, code, floor, cands) == Search(gen, code, floor, cands[i..])
      invariant i == 3 ==> Search(gen, code, floor, cands) == Refused
    {
      var d := offsets[i];
      i := i + 1;
      if d < 0 && current == 0 {
        assert cands[2..] == [];
        continue;
      }
      var cand := current;
      if d > 0 { cand := (current + d) % TWO64; } else if d < 0 { cand := (current - (-d)) % TWO64; }
      assert cand == cands[i - 1] && cands[i - 1..][1..] == cands[i..];
      var want := gen(cand);
      if want.None? { return Broken; }
      if want.value == trimmed {
        if cand <= floor { return Refused; }
        return Accepted(cand);
      }
      assert i == 3 ==> cands[i..] == [];
    }
    return Refused;
  }

  /** The step is within one of the current, its code is the one typed, and it is above the floor. */
  predicate Acceptable(gen: Generator, code: string, floor: int, current: int, step: int) {
    step >= 0 && current - 1 <= step <= current + 1 && gen(step) == Some(Text.TrimSpace(code)) && step > floor
  }

  ghost predicate MeetsRule(gen: Generator, code: string, floor: int, current: int, v: Verdict) {
    && v != Broken
    && (v.Accepted? <==> exists step :: Acceptable(gen, code, floor, current, step))
    && (v.Accepted? ==> Acceptable(gen, code, floor, current, v.step)
                        && forall step :: Acceptable(gen, code, floor, current, step) ==> step <= v.step)
  }

  /** A usable secret is accepted exactly when some step within one of the current matches the code
      and exceeds the floor, and then the highest such step is returned. Only a clock reading 30 to
      59 seconds before 1970 is excluded: there the counter is 2^64 - 1. */
  lemma AcceptsHighestFreshStep(gen: Generator, code: string, floor: int, unix: int)
    requires Usable(gen) && CurrentStep(unix) != TWO64 - 1
    ensures MeetsRule(gen, code, floor, CurrentStep(unix),
                      Search(gen, code, floor, Candidates(CurrentStep(unix))))
  {
    var current := CurrentStep(unix);
    SearchFinds(gen, code, Text.TrimSpace(code), floor, current);
    var v := Search(gen, code, floor, Candidates(current));
    if v.Accepted? { assert Acceptable(gen, code, floor, current, v.step); }
    forall step | Acceptable(gen, code, floor, current, step) ensures v.Accepted? && step <= v.step {
      assert step == current + 1 || step == current || step == current - 1;
    }
  }

  lemma SearchFinds(gen: Generator, code: string, t: string, floor: int, current: int)
    requires 0 <= current < TWO64 - 1 && Usable(gen) && t == Text.TrimSpace(code)
    ensures Search(gen, code, floor, Candidates(current)) ==
            (if gen(current + 1) == Some(t) then (if current + 1 <= floor then Refused else Accepted(current + 1))
             else if gen(current) == Some(t) then (if current <= floor then Refused else Accepted(current))
             else if current > 0 && gen(current - 1) == Some(t)
             then (if current - 1 <= floor then Refused else Accepted(current - 1))
             else Refused)
  {
    var c := Candidates(current);
    assert c[1..][0] == current && c[1..][1..] == c[2..];
    if current > 0 { assert c[2..][0] == current - 1 && c[2..][1..] == []; } else { assert c[2..] == []; }
    assert Search(gen, code, floor, c[2..]) ==
           if current > 0 && gen(current - 1) == Some(t)
           then (if current - 1 <= floor then Refused else Accepted(current - 1))
           else Refused;
  }

  /** What a user types is accepted only if, without the white space around it, it is the code of a step
      within one of the clock's 30 seconds, above the floor; and it is refused when no such step has it. */
  lemma VerdictIsByCode(gen: Generator, code: string, typed: string, floor: int, unix: int)
    requires Usable(gen) && 0 <= unix <= MAX64 && Text.Stripped(typed, code)
    ensures var v, now := Search(gen, typed, floor, Candidates(CurrentStep(unix))), unix / 30;
            && (v.Accepted? ==> gen(v.step) == Some(code) && now - 1 <= v.step <= now + 1 && v.step > floor)
            && (gen(now + 1) != Some(code) && gen(now) != Some(code) && gen(now - 1) != Some(code) ==> v == Refused)
            && (gen(now) == Some(code) && now > floor && gen(now + 1) != Some(code) ==> v == Accepted(now))
  {
    Text.TrimSpaceStrips(typed, code);
    assert CurrentStep(unix) == unix / 30;
    SearchFinds(gen, typed, code, floor, unix / 30);
  }

  predicate Blank(s: string) {
    forall i :: 0 <= i < |s| ==> s[i] == ' ' || s[i] == '\t' || s[i] == '\r' || s[i] == '\n'
  }

  /** Blanks, tabs and line ends around a code of digits make no difference. */
  lemma BlanksDoNotMatter(gen: Generator, code: string, a: string, b: string, floor: int, cands: seq<int>)
    requires Blank(a) && Blank(b) && forall i :: 0 <= i < |code| ==> '0' <= code[i] <= '9'
    ensures Search(gen, a + code + b, floor, cands) == Search(gen, code, floor, cands)
  {
    var s := a + code + b;
    assert s[|a|..|a| + |code|] == code == code[0..|code|];
    assert Text.Between(s, |a|, |a| + |code|) && Text.Between(code, 0, |code|);
    Text.TrimSpaceStrips(s, code);
    Text.TrimSpaceStrips(code, code);
    SameTrimmed(gen, s, code, floor, cands);
  }

  lemma {:induction false} SameTrimmed(gen: Generator, x: string, y: string, floor: int, cands: seq<int>)
    requires Text.TrimSpace(x) == Text.TrimSpace(y)
    ensures Search(gen, x, floor, cands) == Search(gen, y, floor, cands)
  {
    if cands != [] { SameTrimmed(gen, x, y, floor, cands[1..]); }
  }

  /** The excluded clock does break the rule: with every step showing the same code and floor 0, the
      wrapped counter 0 is tried first and its replay check ends the search. */
  lemma WrappedCounterBreaksRule(unix: int)
    requires CurrentStep(unix) == TWO64 - 1
    ensures var gen: Generator := _ => Some("000000");
            Usable(gen) && !MeetsRule(gen, "000000", 0, CurrentStep(unix),
                                      Search(gen, "000000", 0, Candidates(CurrentStep(unix))))
  {
    var gen: Generator := _ => Some("000000");
    assert Text.TrimSpace("000000") == "000000";
    assert Acceptable(gen, "000000", 0, TWO64 - 1, TWO64 - 1);
  }

  /** `Validate` meets the rule for every secret, code and floor exactly when the clock does not read
      30 to 59 seconds before 1970. */
  lemma RuleHoldsIffCounterDoesNotWrap(unix: int)
    requires MIN64 <= unix <= MAX64
    ensures (forall gen: Generator, code: string, floor: int :: Usable(gen) ==>
               MeetsRule(gen, code, floor, CurrentStep(unix),
                         Search(gen, code, floor, Candidates(CurrentStep(unix)))))
            <==> !(-60 < unix <= -30)
  {
    CounterWrapsIff(unix);
    if CurrentStep(unix) == TWO64 - 1 {
      WrappedCounterBreaksRule(unix);
    } else {
      forall gen: Generator, code: string, floor: int | Usable(gen)
        ensures MeetsRule(gen, code, floor, CurrentStep(unix),
                          Search(gen, code, floor, Candidates(CurrentStep(unix))))
      {
        AcceptsHighestFreshStep(gen, code, floor, unix);
      }
    }
  }

  // ---------------------------------------------------------------- one secret's life

  /** A code entered at some time; `storeFails` when the new floor cannot be persisted. */
  datatype Attempt = Attempt(code: string, unix: int, storeFails: bool)

  /** The secret's stored floor and the steps accepted under it so far, enrolment first. */
  datatype Life = Life(enrolled: bool, floor: int, accepted: seq<int>)

  function AfterAttempt(gen: Generator, l: Life, a: Attempt): Life {
    var v := Search(gen, a.code, if l.enrolled then l.floor else 0, Candidates(CurrentStep(a.unix)));
    if !v.Accepted? || a.storeFails then l else Life(true, v.step, l.accepted + [v.step])
  }

  /** The enrolment confirmation (floor 0) followed by logins one at a time. */
  function LifeOf(gen: Generator, attempts: seq<Attempt>): Life {
    if attempts == [] then Life(false, 0, [])
    else AfterAttempt(gen, LifeOf(gen, attempts[..|attempts| - 1]), attempts[|attempts| - 1])
  }

  predicate Increasing(s: seq<int>) { forall i, j :: 0 <= i < j < |s| ==> s[i] < s[j] }

  lemma SearchAboveFloor(gen: Generator, code: string, floor: int, cands: seq<int>)
    ensures var v := Search(gen, code, floor, cands); v.Accepted? ==> v.step > floor && v.step in cands
  {
  }

  /** Over any sequence of attempts under one secret the accepted steps strictly increase, so no step,
      the enrolment step included, is ever accepted twice. */
  lemma {:induction false} StepsNeverRepeat(gen: Generator, attempts: seq<Attempt>)
    ensures var l := LifeOf(gen, attempts);
            && Increasing(l.accepted)
            && l.enrolled == (l.accepted != [])
            && (l.enrolled ==> l.floor == l.accepted[|l.accepted| - 1])
            && forall i :: 0 <= i < |l.accepted| ==> l.accepted[i] > 0
  {
    if attempts != [] {
      var u, a := attempts[..|attempts| - 1], attempts[|attempts| - 1];
      StepsNeverRepeat(gen, u);
      var l := LifeOf(gen, u);
      SearchAboveFloor(gen, a.code, if l.enrolled then l.floor else 0, Candidates(CurrentStep(a.unix)));
    }
  }

  /** No good code is lost: one that belongs to the clock's step, or the step before or after it, is
      accepted if that step is above every step accepted so far and storing it does not fail. */
  lemma FreshCodeIsAccepted(gen: Generator, attempts: seq<Attempt>, a: Attempt, step: int)
    requires Usable(gen) && 0 < a.unix <= MAX64 && !a.storeFails
    requires step > 0 && a.unix / 30 - 1 <= step <= a.unix / 30 + 1 && gen(step) == Some(Text.TrimSpace(a.code))
    requires forall s :: s in LifeOf(gen, attempts).accepted ==> s < step
    ensures var l, m := LifeOf(gen, attempts), LifeOf(gen, attempts + [a]);
            |m.accepted| == |l.accepted| + 1 && m.accepted[|l.accepted|] >= step
  {
    assert (attempts + [a])[..|attempts|] == attempts;
    StepsNeverRepeat(gen, attempts);
    var l, now := LifeOf(gen, attempts), a.unix / 30;
    assert CurrentStep(a.unix) == now;
    var floor := if l.enrolled then l.floor else 0;
    if l.enrolled { assert l.accepted[|l.accepted| - 1] in l.accepted; }
    AcceptsHighestFreshStep(gen, a.code, floor, a.unix);
    assert Acceptable(gen, a.code, floor, now, step);
  }
}
