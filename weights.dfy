/** The per-player weight table and its update after each guess
    (`on_command_error`), with the two update formulas that move a weight
    along the curve `1 / (1 + A^x)` for the aggression value `A`. Python
    floats are idealised as reals. */
module Weights {
  import opened Levenshtein

  /** player name -> word entry -> weight */
  type Table = map<string, map<string, real>>

  /** The weight of a player and entry nobody has recorded yet. */
  const DefaultWeight: real := 0.5

  /** `weights[user][entry]` on the nested `defaultdict(lambda: 0.5)`. */
  function Lookup(t: Table, user: string, entry: string): real {
    if user in t && entry in t[user] then t[user][entry] else DefaultWeight
  }

  /** `weights[user][entry] = w`: the read that precedes it has already
      created the player's inner table when it was missing. */
  function Store(t: Table, user: string, entry: string, w: real): Table {
    t[user := (if user in t then t[user] else map[])[entry := w]]
  }

  /** A stored weight is read back, and every other player and entry keeps
      the weight it had. */
  lemma LookupStore(t: Table, user: string, entry: string, w: real, user': string, entry': string)
    ensures Lookup(Store(t, user, entry, w), user', entry')
         == if user' == user && entry' == entry then w else Lookup(t, user', entry')
  {
  }

  /** An unseen player, or an unseen entry, weighs 0.5. */
  lemma LookupUnseen(t: Table, user: string, entry: string)
    requires user !in t || entry !in t[user]
    ensures Lookup(t, user, entry) == 0.5
  {
  }

  /** Every recorded weight lies strictly between 0 and 1. */
  ghost predicate InUnitInterval(t: Table) {
    forall u, e :: u in t && e in t[u] ==> 0.0 < t[u][e] < 1.0
  }

  /** Weights read from a table whose recorded weights are in (0, 1) are in (0, 1). */
  lemma LookupInUnitInterval(t: Table, user: string, entry: string)
    requires InUnitInterval(t)
    ensures 0.0 < Lookup(t, user, entry) < 1.0
  {
  }

  /** Storing a weight in (0, 1) keeps every recorded weight in (0, 1). */
  lemma StoreInUnitInterval(t: Table, user: string, entry: string, w: real)
    requires InUnitInterval(t) && 0.0 < w < 1.0
    ensures InUnitInterval(Store(t, user, entry, w))
  {
    var t' := Store(t, user, entry, w);
    forall u, e | u in t' && e in t'[u] ensures 0.0 < t'[u][e] < 1.0 {
      LookupStore(t, user, entry, w, u, e);
      assert t'[u][e] == Lookup(t', u, e);
      if !(u == user && e == entry) {
        assert u in t && e in t[u];
      }
    }
  }

  /** The weight after a correct guess: `w / (A - w * (A - 1))`. */
  function CorrectStep(w: real, a: real): real
    requires a - w * (a - 1.0) != 0.0
  {
    w / (a - w * (a - 1.0))
  }

  /** The weight after a wrong guess: `A * w / (1 + w * (A - 1))`. */
  function WrongStep(w: real, a: real): real
    requires 1.0 + w * (a - 1.0) != 0.0
  {
    a * w / (1.0 + w * (a - 1.0))
  }

  // Facts of real arithmetic the step lemmas are built from.

  lemma MulPos(x: real, y: real)
    requires x > 0.0 && y > 0.0
    ensures x * y > 0.0
  {
  }

  lemma DivDef(x: real, d: real)
    requires d != 0.0
    ensures (x / d) * d == x
  {
  }

  lemma DivPos(x: real, d: real)
    requires x > 0.0 && d > 0.0
    ensures x / d > 0.0
  {
    DivDef(x, d);
  }

  /** Dividing a positive number by more than 1 makes it smaller. */
  lemma DivLess(x: real, d: real)
    requires x > 0.0 && d > 1.0
    ensures 0.0 < x / d < x
  {
    var q := x / d;
    DivDef(x, d);
    DivPos(x, d);
    MulPos(q, d - 1.0);
    assert q * (d - 1.0) == q * d - q;
  }

  lemma DivEq(x: real, d: real, w: real)
    requires d != 0.0 && x == w * d
    ensures x / d == w
  {
    DivDef(x, d);
  }

  lemma QuotEq(x1: real, d1: real, x2: real, d2: real)
    requires d1 != 0.0 && d2 != 0.0 && x1 * d2 == x2 * d1
    ensures x1 / d1 == x2 / d2
  {
    DivDef(x1, d1);
    DivDef(x2, d2);
  }

  lemma DivSplit(x: real, y: real, d: real)
    requires d != 0.0
    ensures (x + y) / d == x / d + y / d
  {
    DivDef(x, d);
    DivDef(y, d);
    DivDef(x + y, d);
  }

  /** For a weight in (0, 1) and `A > 1`, a correct guess lowers the weight
      and keeps it above 0; its denominator exceeds 1. */
  lemma CorrectStepRange(w: real, a: real)
    requires 0.0 < w < 1.0 && a > 1.0
    ensures a - w * (a - 1.0) > 1.0
    ensures 0.0 < CorrectStep(w, a) < w
  {
    var den := a - w * (a - 1.0);
    MulPos(1.0 - w, a - 1.0);
    assert den == 1.0 + (1.0 - w) * (a - 1.0);
    DivLess(w, den);
  }

  /** For a weight in (0, 1) and `A > 1`, a wrong guess raises the weight
      and keeps it below 1; its denominator exceeds 1. */
  lemma WrongStepRange(w: real, a: real)
    requires 0.0 < w < 1.0 && a > 1.0
    ensures 1.0 + w * (a - 1.0) > 1.0
    ensures w < WrongStep(w, a) < 1.0
  {
    var den := 1.0 + w * (a - 1.0);
    MulPos(w, a - 1.0);
    DivLess(1.0 - w, den);
    var r := (1.0 - w) / den;
    assert a * w + (1.0 - w) == den;
    DivSplit(a * w, 1.0 - w, den);
    assert den / den == 1.0;
    assert WrongStep(w, a) == 1.0 - r;
  }

  /** The two steps undo each other: a wrong guess after a correct one, or a
      correct guess after a wrong one, gives back the weight. */
  lemma StepsInverse(w: real, a: real)
    requires 0.0 < w < 1.0 && a > 1.0
    ensures a - WrongStep(w, a) * (a - 1.0) != 0.0
    ensures CorrectStep(WrongStep(w, a), a) == w
    ensures 1.0 + CorrectStep(w, a) * (a - 1.0) != 0.0
    ensures WrongStep(CorrectStep(w, a), a) == w
  {
    CorrectUndoesWrong(w, a);
    WrongUndoesCorrect(w, a);
  }

  /** A correct guess undoes a wrong one. */
  lemma CorrectUndoesWrong(w: real, a: real)
    requires 0.0 < w < 1.0 && a > 1.0
    ensures a - WrongStep(w, a) * (a - 1.0) > 1.0
    ensures CorrectStep(WrongStep(w, a), a) == w
  {
    WrongStepRange(w, a);
    var y := WrongStep(w, a);
    CorrectStepRange(y, a);
    var dw := 1.0 + w * (a - 1.0);
    DivDef(a * w, dw);
    assert y * dw == y + w * y * (a - 1.0);
    assert w * (a - y * (a - 1.0)) == w * a - w * y * (a - 1.0);
    DivEq(y, a - y * (a - 1.0), w);
  }

  /** A wrong guess undoes a correct one. */
  lemma WrongUndoesCorrect(w: real, a: real)
    requires 0.0 < w < 1.0 && a > 1.0
    ensures 1.0 + CorrectStep(w, a) * (a - 1.0) > 1.0
    ensures WrongStep(CorrectStep(w, a), a) == w
  {
    CorrectStepRange(w, a);
    var x := CorrectStep(w, a);
    WrongStepRange(x, a);
    var dc := a - w * (a - 1.0);
    DivDef(w, dc);
    assert x * dc == x * a - x * w * (a - 1.0);
    assert w * (1.0 + x * (a - 1.0)) == w + w * x * (a - 1.0);
    DivEq(a * x, 1.0 + x * (a - 1.0), w);
  }

  /** `A^x` for an integer exponent. */
  function Power(a: real, x: int): real
    requires a > 0.0
    decreases if x < 0 then -x else x
  {
    if x == 0 then 1.0
    else if x > 0 then a * Power(a, x - 1)
    else Power(a, x + 1) / a
  }

  /** Powers of a positive base are positive. */
  lemma {:induction false} PowerPositive(a: real, x: int)
    requires a > 0.0
    ensures Power(a, x) > 0.0
    decreases if x < 0 then -x else x
  {
    if x > 0 {
      PowerPositive(a, x - 1);
      MulPos(a, Power(a, x - 1));
    } else if x < 0 {
      PowerPositive(a, x + 1);
      DivPos(Power(a, x + 1), a);
    }
  }

  /** Raising the exponent by one multiplies by `A`, on both sides of 0. */
  lemma PowerSucc(a: real, x: int)
    requires a > 0.0
    ensures Power(a, x) > 0.0
    ensures Power(a, x + 1) == a * Power(a, x)
  {
    PowerPositive(a, x);
    if x < 0 {
      DivDef(Power(a, x + 1), a);
    }
  }

  /** The point `1 / (1 + A^x)` of the curve the weights move along. */
  function Curve(a: real, x: int): real
    requires a > 0.0
  {
    PowerSucc(a, x);
    1.0 / (1.0 + Power(a, x))
  }

  /** "Move left and right along the curve": a correct guess moves the weight
      from the curve's point at `x` to the point at `x + 1`, a wrong guess to
      the point at `x - 1`. */
  lemma StepsAlongCurve(a: real, x: int)
    requires a > 1.0
    ensures 0.0 < Curve(a, x) < 1.0
    ensures CorrectStep(Curve(a, x), a) == Curve(a, x + 1)
    ensures WrongStep(Curve(a, x), a) == Curve(a, x - 1)
  {
    CorrectAlongCurve(a, x);
    WrongAlongCurve(a, x);
  }

  /** A correct guess moves the weight from the curve's point at `x` to the point at `x + 1`. */
  lemma CorrectAlongCurve(a: real, x: int)
    requires a > 1.0
    ensures 0.0 < Curve(a, x) < 1.0
    ensures CorrectStep(Curve(a, x), a) == Curve(a, x + 1)
  {
    var p := Power(a, x);
    PowerSucc(a, x);
    DivDef(1.0, 1.0 + p);
    DivLess(1.0, 1.0 + p);
    CorrectOnCurve(Curve(a, x), p, a);
  }

  /** A wrong guess moves the weight from the curve's point at `x` to the point at `x - 1`. */
  lemma WrongAlongCurve(a: real, x: int)
    requires a > 1.0
    ensures 0.0 < Curve(a, x) < 1.0
    ensures WrongStep(Curve(a, x), a) == Curve(a, x - 1)
  {
    var p := Power(a, x);
    PowerSucc(a, x - 1);
    DivDef(1.0, 1.0 + p);
    DivLess(1.0, 1.0 + p);
    WrongOnCurve(Curve(a, x), p, Power(a, x - 1), a);
  }

  /** A correct guess from the point `1 / (1 + p)` reaches `1 / (1 + A p)`. */
  lemma CorrectOnCurve(w: real, p: real, a: real)
    requires a > 1.0 && p > 0.0 && 0.0 < w < 1.0 && w * (1.0 + p) == 1.0
    ensures CorrectStep(w, a) == 1.0 / (1.0 + a * p)
  {
    CorrectStepRange(w, a);
    MulPos(a, p);
    var dc := a - w * (a - 1.0);
    assert w * p == 1.0 - w;
    assert w * (1.0 + a * p) == w + a * (w * p);
    assert a * (w * p) == a - a * w;
    assert dc == a - a * w + w;
    QuotEq(w, dc, 1.0, 1.0 + a * p);
  }

  /** A wrong guess from the point `1 / (1 + A q)` reaches `1 / (1 + q)`. */
  lemma WrongOnCurve(w: real, p: real, q: real, a: real)
    requires a > 1.0 && q > 0.0 && p == a * q && 0.0 < w < 1.0 && w * (1.0 + p) == 1.0
    ensures WrongStep(w, a) == 1.0 / (1.0 + q)
  {
    WrongStepRange(w, a);
    var dw := 1.0 + w * (a - 1.0);
    assert w * (a * q) == 1.0 - w;
    assert a * w * (1.0 + q) == a * w + w * (a * q);
    assert dw == 1.0 + w * a - w;
    QuotEq(a * w, dw, 1.0, 1.0 + q);
  }

  /** Worked examples: with `A = 2` from 0.5, a correct guess
      gives 1/3 and a wrong one 2/3; with `A = 1.5`, a miss gives 0.6. */
  lemma UpdateExamples()
    ensures CorrectStep(0.5, 2.0) == 1.0 / 3.0
    ensures WrongStep(0.5, 2.0) == 2.0 / 3.0
    ensures WrongStep(0.5, 1.5) == 0.6
  {
  }

  /** The bot's weight state: the table and the aggression value, which
      loading only accepts when it is greater than 1. */
  class Game {
    var weights: Table
    const aggression: real

    ghost predicate Valid()
      reads this
    {
      aggression > 1.0 && InUnitInterval(weights)
    }

    /** The state after a successful load. */
    constructor (loaded: Table, aggression: real)
      requires aggression > 1.0
      requires InUnitInterval(loaded)
      ensures Valid()
      ensures weights == loaded && this.aggression == aggression
    {
      weights := loaded;
      this.aggression := aggression;
    }

    /** A guess at the secret entry whose accepted spellings are `spellings`:
        read the player's weight for the entry, take the correct-guess step
        when the guess is one of the spellings and the wrong-guess step
        otherwise, and write the new weight back under that one player and
        entry. The weight goes down after a correct guess, up after a wrong
        one, and stays in (0, 1). */
    method RecordGuess(user: string, secret: string, guess: string, spellings: seq<string>)
      returns (oldWeight: real, newWeight: real)
      requires Valid()
      modifies this
      ensures Valid()
      ensures oldWeight == Lookup(old(weights), user, secret)
      ensures 0.0 < oldWeight < 1.0
      ensures aggression - oldWeight * (aggression - 1.0) > 1.0
      ensures 1.0 + oldWeight * (aggression - 1.0) > 1.0
      ensures IsCorrect(guess, spellings) ==> 0.0 < newWeight < oldWeight
      ensures !IsCorrect(guess, spellings) ==> oldWeight < newWeight < 1.0
      ensures newWeight == if IsCorrect(guess, spellings) then CorrectStep(oldWeight, aggression)
                           else WrongStep(oldWeight, aggression)
      ensures weights == Store(old(weights), user, secret, newWeight)
    {
      oldWeight := Lookup(weights, user, secret);
      LookupInUnitInterval(weights, user, secret);
      CorrectStepRange(oldWeight, aggression);
      WrongStepRange(oldWeight, aggression);
      if guess in spellings {
        newWeight := oldWeight / (aggression - oldWeight * (aggression - 1.0));
      } else {
        newWeight := aggression * oldWeight / (1.0 + oldWeight * (aggression - 1.0));
      }
      StoreInUnitInterval(weights, user, secret, newWeight);
      weights := Store(weights, user, secret, newWeight);
    }
  }
}
