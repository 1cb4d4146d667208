/** The interactive greeting script: a name and an age, read from the user,
    are validated in a fixed order and, once accepted, the age is sorted
    into one of four greeting brackets. Input capture and console output are
    left out; the decision is a value of type `Outcome`. */
module InteractiveSystem {
  import opened Wrappers
  import opened JsString

  /** What the script reports. The first four are the error messages, the
      last four the greetings, each of which addresses the user by name. */
  datatype Outcome =
    | EmptyName
    | InvalidNumber
    | NegativeAge
    | UnlikelyAge
    | StartYoung(name: string)
    | Underage(name: string)
    | BrightFuture(name: string)
    | NoAgeLimits(name: string)
  {
    predicate IsError() {
      EmptyName? || InvalidNumber? || NegativeAge? || UnlikelyAge?
    }

    predicate IsGreeting() {
      StartYoung? || Underage? || BrightFuture? || NoAgeLimits?
    }

    /** The same outcome addressed to `n` (errors carry no name). */
    function WithName(n: string): Outcome {
      match this
      case StartYoung(_) => StartYoung(n)
      case Underage(_) => Underage(n)
      case BrightFuture(_) => BrightFuture(n)
      case NoAgeLimits(_) => NoAgeLimits(n)
      case _ => this
    }
  }

  /** The lowest and highest ages the script accepts. */
  const MinAge: real := 0.0
  const MaxAge: real := 120.0

  /** The greeting bracket for an age that passed validation, with the
      guards as written: `< 12`, then `>= 12 && <= 17`, then
      `>= 18 && <= 24`, else the final greeting. */
  function Bracket(name: string, age: real): (r: Outcome)
    ensures r.IsGreeting() && r.name == name
    ensures r.StartYoung? <==> age < 12.0
    ensures r.Underage? <==> 12.0 <= age <= 17.0
    ensures r.BrightFuture? <==> 18.0 <= age <= 24.0
  {
    if age < 12.0 then StartYoung(name)
    else if age >= 12.0 && age <= 17.0 then Underage(name)
    else if age >= 18.0 && age <= 24.0 then BrightFuture(name)
    else NoAgeLimits(name)
  }

  /** The whole decision over the trimmed name and the converted age, where
      `None` is `NaN`. The checks run in order and the first that fires wins. */
  function Classify(name: string, age: Option<real>): (r: Outcome)
    ensures r.IsError() != r.IsGreeting()
    ensures r.IsGreeting() <==> name != [] && age.Some? && MinAge <= age.value <= MaxAge
    ensures r.IsGreeting() ==> r.name == name
  {
    if name == [] then EmptyName
    else if age.None? then InvalidNumber
    else if age.value < MinAge then NegativeAge
    else if age.value > MaxAge then UnlikelyAge
    else Bracket(name, age.value)
  }

  /** The script end to end, from the raw (untrimmed) name. */
  function Run(rawName: string, age: Option<real>): (r: Outcome)
    ensures r == EmptyName <==> AllTrimmable(rawName)
    ensures r.IsGreeting() ==> IsTrimmed(r.name) && |r.name| <= |rawName|
  {
    Classify(Trim(rawName), age)
  }

  /** An order-free decision table: which outcome each input admits, stated
      as disjoint conditions rather than as a first-match chain. */
  ghost predicate Admits(name: string, age: Option<real>, o: Outcome) {
    match o
    case EmptyName => name == []
    case InvalidNumber => name != [] && age.None?
    case NegativeAge => name != [] && age.Some? && age.value < 0.0
    case UnlikelyAge => name != [] && age.Some? && age.value > 120.0
    case StartYoung(n) =>
      n == name && name != [] && age.Some? && 0.0 <= age.value < 12.0
    case Underage(n) =>
      n == name && name != [] && age.Some? && 12.0 <= age.value <= 17.0
    case BrightFuture(n) =>
      n == name && name != [] && age.Some? && 18.0 <= age.value <= 24.0
    case NoAgeLimits(n) =>
      n == name && name != [] && age.Some?
      && ((17.0 < age.value < 18.0) || (24.0 < age.value <= 120.0))
  }

  /** Classify picks exactly the outcome the table admits, in both directions. */
  lemma ClassifyMatchesTable(name: string, age: Option<real>, o: Outcome)
    ensures Classify(name, age) == o <==> Admits(name, age, o)
  {
  }

  /** Every input admits exactly one outcome: the chain is total and its
      branches do not overlap. */
  lemma TableExactlyOne(name: string, age: Option<real>)
    ensures Admits(name, age, Classify(name, age))
    ensures forall o1, o2 :: Admits(name, age, o1) && Admits(name, age, o2) ==> o1 == o2
  {
  }

  /** An empty name is reported first, whatever the age, NaN and negative
      ages included. */
  lemma EmptyNameFirst(age: Option<real>)
    ensures Classify([], age) == EmptyName
  {
  }

  /** With a name present, NaN is reported before any range check. */
  lemma NaNAfterName(name: string)
    requires name != []
    ensures Classify(name, None) == InvalidNumber
  {
  }

  /** The range checks for a present name and a numeric age: below 0 and
      above 120 are errors, and both ends 0 and 120 are accepted. */
  lemma AgeRange(name: string, a: real)
    requires name != []
    ensures a < 0.0 ==> Classify(name, Some(a)) == NegativeAge
    ensures a > 120.0 ==> Classify(name, Some(a)) == UnlikelyAge
    ensures !Classify(name, Some(0.0)).IsError()
    ensures !Classify(name, Some(120.0)).IsError()
  {
  }

  /** The brackets of an accepted age. */
  lemma AcceptedBrackets(name: string, a: real)
    requires name != [] && 0.0 <= a <= 120.0
    ensures 0.0 <= a < 12.0 ==> Classify(name, Some(a)) == StartYoung(name)
    ensures 12.0 <= a <= 17.0 ==> Classify(name, Some(a)) == Underage(name)
    ensures 18.0 <= a <= 24.0 ==> Classify(name, Some(a)) == BrightFuture(name)
    ensures (17.0 < a < 18.0 || 24.0 < a) ==> Classify(name, Some(a)) == NoAgeLimits(name)
  {
  }

  /** Where each boundary age lands. */
  lemma Boundaries(name: string)
    requires name != []
    ensures Classify(name, Some(-0.5)) == NegativeAge
    ensures Classify(name, Some(0.0)) == StartYoung(name)
    ensures Classify(name, Some(11.0)) == StartYoung(name)
    ensures Classify(name, Some(12.0)) == Underage(name)
    ensures Classify(name, Some(17.0)) == Underage(name)
    ensures Classify(name, Some(18.0)) == BrightFuture(name)
    ensures Classify(name, Some(24.0)) == BrightFuture(name)
    ensures Classify(name, Some(25.0)) == NoAgeLimits(name)
    ensures Classify(name, Some(120.0)) == NoAgeLimits(name)
    ensures Classify(name, Some(120.5)) == UnlikelyAge
  {
  }

  /** The bracket chain with either of the lower guards `age >= 12` and
      `age >= 18` optionally dropped. */
  function BracketDropping(name: string, age: real, dropTwelve: bool, dropEighteen: bool): (r: Outcome)
    ensures r.IsGreeting() && r.name == name
  {
    if age < 12.0 then StartYoung(name)
    else if (dropTwelve || age >= 12.0) && age <= 17.0 then Underage(name)
    else if (dropEighteen || age >= 18.0) && age <= 24.0 then BrightFuture(name)
    else NoAgeLimits(name)
  }

  /** `age >= 12` is implied by the failure of `age < 12`, so dropping it
      never changes the bracket. `age >= 18` is implied by the failure of the
      underage test only for ages outside the open interval (17, 18): dropping
      it changes the bracket of exactly those ages, and of no integer age. */
  lemma LowerGuardsRedundant(name: string, age: real, dropTwelve: bool)
    ensures BracketDropping(name, age, dropTwelve, false) == Bracket(name, age)
    ensures BracketDropping(name, age, dropTwelve, true) == Bracket(name, age)
            <==> !(17.0 < age < 18.0)
    ensures age.Floor as real == age ==>
              BracketDropping(name, age, dropTwelve, true) == Bracket(name, age)
  {
  }

  /** Non-integer ages between the integer-closed ranges fall through: an
      age strictly between 17 and 18 gets neither the underage nor the
      bright-future greeting, and one strictly between 24 and 25 is treated
      like 25. */
  lemma FractionalGaps(name: string, a: real)
    requires name != []
    ensures 17.0 < a < 18.0 ==> Classify(name, Some(a)) == NoAgeLimits(name)
    ensures 24.0 < a < 25.0 ==> Classify(name, Some(a)) == Classify(name, Some(25.0))
  {
  }

  /** The name matters only through being empty: for two non-empty names
      the errors coincide and the greetings differ only in whom they address. */
  lemma NameOnlyAddressed(n1: string, n2: string, age: Option<real>)
    requires n1 != [] && n2 != []
    ensures Classify(n2, age) == Classify(n1, age).WithName(n2)
    ensures Classify(n1, age).IsError() ==> Classify(n2, age) == Classify(n1, age)
  {
  }

  /** Surrounding whitespace around a name is ignored: the decision is the
      one for the bare name. */
  lemma RunIgnoresPadding(p: string, n: string, q: string, age: Option<real>)
    requires AllTrimmable(p) && AllTrimmable(q) && IsTrimmed(n)
    ensures Run(p + n + q, age) == Classify(n, age)
  {
    TrimUnique(p, n, q);
  }
}
