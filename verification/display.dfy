/**
 * The three text fields the controller writes: the exercise label and the
 * set and repetition counters, each rendered as "<done> / <total>".
 */
module Display {
  import opened Text

  const StandbyLabel: string := "STANDBY"
  const ZeroCounter: string := "0 / 0"

  /**
   * The exercise label shown when a session starts: the first `_` becomes a
   * space, the result is upper-cased, then the first ".EXE" is removed.
   */
  function FormatExercise(id: string): (r: string)
    ensures |r| == |id| || |r| + 4 == |id|
    ensures forall i | 0 <= i < |r| :: !IsLowerAscii(r[i])
  {
    ReplaceFirst(ToUpperAscii(ReplaceFirst(id, "_", " ")), ".EXE", "")
  }

  /**
   * An identifier with no underscore and no ".EXE" once upper-cased is
   * shown simply upper-cased.
   */
  lemma PlainIdentifierIsUpperCased(id: string)
    requires forall j: nat :: !OccursAt(id, "_", j)
    requires forall j: nat :: !OccursAt(ToUpperAscii(id), ".EXE", j)
    ensures FormatExercise(id) == ToUpperAscii(id)
  {
  }

  /** "squats" is shown as "SQUATS". */
  lemma FormatSquats()
    ensures FormatExercise("squats") == "SQUATS"
  {
    AbsentFirstChar("squats", "_");
    assert ToUpperAscii("squats") == "SQUATS";
    AbsentFirstChar("SQUATS", ".EXE");
  }

  /** The first underscore becomes a space and a ".exe" suffix disappears. */
  lemma FormatJumpRope()
    ensures FormatExercise("jump_rope.exe") == "JUMP ROPE"
  {
    JumpRopeUnderscore();
    UpperJumpRope("jump rope.exe");
    JumpRopeSuffix();
  }

  // The string is passed as a parameter rather than written as a literal so
  // that the solver does not unfold ToUpperAscii on a literal argument.
  lemma UpperJumpRope(t: string)
    requires t == "jump rope.exe"
    ensures ToUpperAscii(t) == "JUMP ROPE.EXE"
  {
  }

  lemma JumpRopeUnderscore()
    ensures ReplaceFirst("jump_rope.exe", "_", " ") == "jump rope.exe"
  {
    var s := "jump_rope.exe";
    assert OccursAt(s, "_", 4);
    AbsentFirstChar(s[..4], "_");
    forall j: nat | j < 4 ensures !OccursAt(s, "_", j) {
      assert s[j] == s[..4][j];
    }
    assert ReplaceFirst(s, "_", " ") == s[..4] + " " + s[5..];
    assert s[..4] + " " + s[5..] == "jump rope.exe";
  }

  lemma JumpRopeSuffix()
    ensures ReplaceFirst("JUMP ROPE.EXE", ".EXE", "") == "JUMP ROPE"
  {
    var u := "JUMP ROPE.EXE";
    assert OccursAt(u, ".EXE", 9);
    AbsentFirstChar(u[..9], ".EXE");
    forall j: nat | j < 9 ensures !OccursAt(u, ".EXE", j) {
      assert u[j] == u[..9][j];
    }
    assert ReplaceFirst(u, ".EXE", "") == u[..9] + "" + u[13..];
    assert u[..9] + "" + u[13..] == "JUMP ROPE";
  }

  /** A counter display "<done> / <total>". */
  function Counter(done: string, total: string): string {
    done + " / " + total
  }

  /**
   * A counter shown when a session starts: `done` and `total` rendered in
   * decimal around " / ", each readable back from its part of the text.
   */
  function OpeningCounter(done: nat, total: nat): (r: string)
    ensures var k := |NatToString(done)|;
            && |r| > k + 3
            && AllDigits(r[..k]) && DigitsValue(r[..k]) == done
            && r[k..k + 3] == " / "
            && AllDigits(r[k + 3..]) && DigitsValue(r[k + 3..]) == total
    ensures |r| == |NatToString(done)| + 3 + |NatToString(total)|
    ensures r[|NatToString(done)| + 3] == '0' ==> total == 0
  {
    var d := NatToString(done);
    var t := NatToString(total);
    var r := Counter(d, t);
    DigitsValueOfNatToString(done);
    DigitsValueOfNatToString(total);
    assert r[..|d|] == d && r[|d| + 3..] == t;
    r
  }

  /** A counter field of a status payload: a JSON integer or an absent member. */
  datatype Field = Num(n: int) | Absent

  /** Template-literal rendering of a payload field (`undefined` when absent). */
  function RenderField(f: Field): string {
    match f
    case Num(n) => IntToString(n)
    case Absent => "undefined"
  }
}
