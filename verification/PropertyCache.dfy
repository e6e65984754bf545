/** The value of a property with its cache of one parsed form (Properties.h, lines 784-889; Properties.cpp,
    lines 79-86). Types are numbered; their converters are arbitrary. */
module PropertyCaches {
  import opened Options

  /** For every type from_string_view, where None stands for an exception, to_string, the values of the type,
      and the type of the sum of two of them: `int` for the narrow integers, the type itself otherwise. */
  datatype Converters<!V> = Converters(
    parse: (nat, string) -> Option<V>,
    show: (nat, V) -> string,
    fits: (nat, V) -> bool,
    promoted: nat -> nat)

  datatype Cast<V> = Cast(kind: nat, value: V)

  /** `triggered`: the strings the notify handlers were called with, one for each call of trigger_update. */
  datatype Data<V> = Data(value: string, cast: Option<Cast<V>>, modified: bool, triggered: seq<string>)

  // ------------------------------------------------------------------ reads and updates as functions

  /** What a read at `kind` answers: the cached form if it is of that type, a parse otherwise. */
  function Read<V>(c: Converters<V>, d: Data<V>, kind: nat): Option<V> {
    if d.cast.Some? && d.cast.value.kind == kind then Some(d.cast.value.value)
    else c.parse(kind, d.value)
  }

  /** What a read leaves: the parsed form is cached. */
  function AfterRead<V>(c: Converters<V>, d: Data<V>, kind: nat): Data<V> {
    match Read(c, d, kind)
    case None => d
    case Some(v) => d.(cast := Some(Cast(kind, v)))
  }

  function Updated<V>(c: Converters<V>, d: Data<V>, kind: nat, v: V): Data<V> {
    var s := c.show(kind, v);
    if s == d.value then d else Data(s, Some(Cast(kind, v)), true, d.triggered + [s])
  }

  // ------------------------------------------------------------------ coherence

  /** The cached form is what a parse of the string gives. */
  ghost predicate Coherent<V>(c: Converters<V>, d: Data<V>) {
    d.cast.Some? ==> c.parse(d.cast.value.kind, d.value) == Some(d.cast.value.value)
  }

  /** Every read answers with the parse of the string exactly if the cache is coherent. */
  lemma ReadsRightIffCoherent<V>(c: Converters<V>, d: Data<V>)
    ensures Coherent(c, d) <==> forall kind :: Read(c, d, kind) == c.parse(kind, d.value)
  {
    if d.cast.Some? && Read(c, d, d.cast.value.kind) == c.parse(d.cast.value.kind, d.value) {
      assert Coherent(c, d);
    }
  }

  lemma ReadKeepsCoherent<V>(c: Converters<V>, d: Data<V>, kind: nat)
    requires Coherent(c, d)
    ensures Coherent(c, AfterRead(c, d, kind)) && AfterRead(c, d, kind).value == d.value
    ensures AfterRead(c, d, kind).modified == d.modified && AfterRead(c, d, kind).triggered == d.triggered
  {
  }

  /** An update keeps the cache coherent exactly if it changes nothing or prints what parses back. */
  lemma UpdateCoherentIff<V>(c: Converters<V>, d: Data<V>, kind: nat, v: V)
    requires Coherent(c, d)
    ensures Coherent(c, Updated(c, d, kind, v)) <==>
            c.show(kind, v) == d.value || c.parse(kind, c.show(kind, v)) == Some(v)
  {
  }

  // ------------------------------------------------------------------ runs

  datatype Access<V> = Look(kind: nat) | Put(kind: nat, value: V)

  function Step<V>(c: Converters<V>, d: Data<V>, a: Access<V>): Data<V> {
    match a
    case Look(kind) => AfterRead(c, d, kind)
    case Put(kind, v) => Updated(c, d, kind, v)
  }

  function Run<V>(c: Converters<V>, d: Data<V>, run: seq<Access<V>>): Data<V>
    decreases |run|
  {
    if run == [] then d else Run(c, Step(c, d, run[0]), run[1..])
  }

  /** A property as it is created: with a string and no parsed form. */
  function Fresh<V>(value: string): Data<V> {
    Data(value, None, false, [])
  }

  /** Every value of every type survives being printed and parsed. */
  ghost predicate Faithful<V(!new)>(c: Converters<V>) {
    forall kind, v :: c.fits(kind, v) ==> c.parse(kind, c.show(kind, v)) == Some(v)
  }

  /** Updates are made with values of their type. */
  predicate Typed<V>(c: Converters<V>, run: seq<Access<V>>) {
    forall i :: 0 <= i < |run| && run[i].Put? ==> c.fits(run[i].kind, run[i].value)
  }

  ghost predicate RightAfter<V(!new)>(c: Converters<V>, run: seq<Access<V>>, value: string, kind: nat) {
    var d := Run(c, Fresh(value), run);
    Read(c, d, kind) == c.parse(kind, d.value)
  }

  ghost predicate AlwaysRight<V(!new)>(c: Converters<V>) {
    forall run, value, kind :: Typed(c, run) ==> RightAfter(c, run, value, kind)
  }

  lemma {:induction false} RunKeepsCoherent<V(!new)>(c: Converters<V>, d: Data<V>, run: seq<Access<V>>)
    requires Faithful(c) && Coherent(c, d) && Typed(c, run)
    ensures Coherent(c, Run(c, d, run))
    decreases |run|
  {
    if run != [] {
      match run[0] {
        case Look(kind) => ReadKeepsCoherent(c, d, kind);
        case Put(kind, v) => UpdateCoherentIff(c, d, kind, v);
      }
      RunKeepsCoherent(c, Step(c, d, run[0]), run[1..]);
    }
  }

  /** Reads are right after all accesses in any order and at any types, exactly if every converter
      parses back what it prints. */
  lemma AlwaysRightIffFaithful<V(!new)>(c: Converters<V>)
    ensures AlwaysRight(c) <==> Faithful(c)
  {
    if Faithful(c) {
      forall run, value, kind | Typed(c, run) ensures RightAfter(c, run, value, kind) {
        RunKeepsCoherent(c, Fresh(value), run);
        ReadsRightIffCoherent(c, Run(c, Fresh(value), run));
      }
    } else {
      var kind, v :| c.fits(kind, v) && c.parse(kind, c.show(kind, v)) != Some(v);
      var value := c.show(kind, v) + "x";
      assert |value| != |c.show(kind, v)|;
      var put := Put(kind, v);
      var d := Run(c, Fresh(value), [put]);
      assert [put][1..] == [];
      assert d == Run(c, Step(c, Fresh(value), put), []);
      assert d == Updated(c, Fresh(value), kind, v);
      assert !RightAfter(c, [put], value, kind);
    }
  }

  // ------------------------------------------------------------------ a converter that is not faithful

  function Digits(n: nat): (r: string)
    ensures r != ""
  {
    if n < 10 then [('0' as int + n) as char] else Digits(n / 10) + Digits(n % 10)
  }

  /** Exactly six digits. */
  function SixDigits(n: nat): string
    requires n < 1_000_000
  {
    Digits(1_000_000 + n)[1..]
  }

  /** std::to_string of a floating-point number: six digits behind the point. */
  function FixedPoint(x: real): string {
    var n := ((if x < 0.0 then -x else x) * 1000000.0 + 0.5).Floor;
    (if x < 0.0 then "-" else "") + Digits(n / 1_000_000) + "." + SixDigits(n % 1_000_000)
  }

  lemma NextDigit(n: nat, d: nat)
    requires n > 0 && d < 10
    ensures Digits(10 * n + d) == Digits(n) + [('0' as int + d) as char]
  {
    assert Digits(10 * n + d) == Digits(n) + Digits(d);
  }

  lemma SomeDigits()
    ensures Digits(1_500_000) == "1500000" && Digits(1_250_000) == "1250000"
  {
    NextDigit(1, 5);
    NextDigit(15, 0);
    NextDigit(150, 0);
    NextDigit(1_500, 0);
    NextDigit(15_000, 0);
    NextDigit(150_000, 0);
    NextDigit(1, 2);
    NextDigit(12, 5);
    NextDigit(125, 0);
    NextDigit(1_250, 0);
    NextDigit(12_500, 0);
    NextDigit(125_000, 0);
  }

  /** A number as it is printed, by its rounded millionths. */
  lemma FixedPointIs(x: real, n: nat)
    requires ((if x < 0.0 then -x else x) * 1000000.0 + 0.5).Floor == n
    ensures FixedPoint(x) == (if x < 0.0 then "-" else "") + Digits(n / 1_000_000) + "." + SixDigits(n % 1_000_000)
  {
  }

  /** Two numbers as they are printed: six digits behind the point, the last one rounded, with a sign in front. */
  lemma FixedPointPrints()
    ensures FixedPoint(1.5) == "1.500000"
    ensures FixedPoint(-0.2499996) == "-0.250000"
  {
    SomeDigits();
    FixedPointIs(1.5, 1_500_000);
    FixedPointIs(-0.2499996, 250_000);
  }

  /** Whatever its parser does, a type printed like that is not faithful, and so reads go wrong. */
  lemma FixedPointUnfaithful(c: Converters<real>, kind: nat)
    requires forall x :: c.show(kind, x) == FixedPoint(x)
    requires c.fits(kind, 0.0) && c.fits(kind, 0.0000001)
    ensures !Faithful(c) && !AlwaysRight(c)
  {
    assert FixedPoint(0.0) == FixedPoint(0.0000001);
    AlwaysRightIffFaithful(c);
  }

  /** The new string, if an access changes it. */
  function Changed<V>(c: Converters<V>, d: Data<V>, a: Access<V>): seq<string> {
    if Step(c, d, a).value == d.value then [] else [Step(c, d, a).value]
  }

  /** How often the string changed along a run, and to what. */
  function Changes<V>(c: Converters<V>, d: Data<V>, run: seq<Access<V>>): seq<string>
    decreases |run|
  {
    if run == [] then [] else Changed(c, d, run[0]) + Changes(c, Step(c, d, run[0]), run[1..])
  }

  lemma StepNotifies<V>(c: Converters<V>, d: Data<V>, a: Access<V>)
    ensures Step(c, d, a).triggered == d.triggered + Changed(c, d, a)
    ensures Step(c, d, a).modified <==> d.modified || Changed(c, d, a) != []
  {
  }

  lemma Associative<T>(a: seq<T>, b: seq<T>, c: seq<T>)
    ensures a + b + c == a + (b + c)
  {
  }

  /** Handlers are called exactly when the string changes, and in that order; `modified` says whether
      that happened. */
  lemma {:induction false} NotifiedExactlyOnChange<V>(c: Converters<V>, d: Data<V>, run: seq<Access<V>>)
    ensures Run(c, d, run).triggered == d.triggered + Changes(c, d, run)
    ensures Run(c, d, run).modified <==> d.modified || Changes(c, d, run) != []
    decreases |run|
  {
    if run != [] {
      var next := Step(c, d, run[0]);
      StepNotifies(c, d, run[0]);
      NotifiedExactlyOnChange(c, next, run[1..]);
      Associative(d.triggered, Changed(c, d, run[0]), Changes(c, next, run[1..]));
    }
  }

  // ------------------------------------------------------------------ the property

  class Property<V(==)> {
    const converters: Converters<V>
    var value: string
    var castedValue: Option<Cast<V>>
    var modified: bool
    ghost var triggered: seq<string>

    ghost function State(): Data<V>
      reads this
    {
      Data(value, castedValue, modified, triggered)
    }

    constructor (converters: Converters<V>, value: string)
      ensures State() == Fresh(value) && this.converters == converters
    {
      this.converters, this.value := converters, value;
      castedValue, modified, triggered := None, false, [];
    }

    method As(kind: nat) returns (r: Option<V>)
      modifies `castedValue
      ensures State() == AfterRead(converters, old(State()), kind)
      ensures r == Read(converters, old(State()), kind)
    {
      if castedValue.Some? && castedValue.value.kind == kind {
        return Some(castedValue.value.value);
      }
      r := converters.parse(kind, value);
      match r
      case None =>
      case Some(v) => castedValue := Some(Cast(kind, v));
    }

    method AsOr(kind: nat, fallback: V) returns (r: V)
      modifies `castedValue
      ensures State() == AfterRead(converters, old(State()), kind)
      ensures match Read(converters, old(State()), kind) case None => r == fallback case Some(v) => r == v
    {
      if castedValue.Some? && castedValue.value.kind == kind {
        return castedValue.value.value;
      }
      match converters.parse(kind, value)
      case None => return fallback;
      case Some(v) =>
        castedValue := Some(Cast(kind, v));
        return v;
    }

    method UpdateValue(kind: nat, v: V) returns (changed: bool)
      modifies this
      ensures State() == Updated(converters, old(State()), kind, v)
      ensures changed <==> value != old(value)
    {
      var s := converters.show(kind, v);
      if s == value {
        return false;
      }
      castedValue := Some(Cast(kind, v));
      value := s;
      TriggerUpdate();
      return true;
    }

    method TriggerUpdate()
      modifies `modified, `triggered
      ensures modified && triggered == old(triggered) + [value]
    {
      modified := true;
      triggered := triggered + [value];
    }

    /** The sum replaces the value, at the type of the sum; a string that does not parse is left alone. */
    method IncrementBy(kind: nat, step: V, plus: (V, V) -> V) returns (ok: bool)
      modifies this
      ensures
        match Read(converters, old(State()), kind)
        case None => !ok && State() == old(State())
        case Some(v) => ok && State() == Updated(converters, AfterRead(converters, old(State()), kind),
          converters.promoted(kind), plus(v, step))
    {
      var current := As(kind);
      match current
      case None => return false;
      case Some(v) =>
        var changed := UpdateValue(converters.promoted(kind), plus(v, step));
        return true;
    }
  }
}
