/** Cells: exact equality across integer widths and decimals, canonical keys, and tolerant comparison. */
module ValueComparison {
  import opened Prelude
  import D = Decimal

  /** A float as a real number; not-a-number keeps its bits, which only key encoding looks at. */
  datatype FloatValue = Finite(r: real) | Infinite(negative: bool) | NotANumber(bits: nat)

  datatype Value =
    | Null | TypedNull(typeName: string) | Bool(b: bool)
    | Int16(i: int) | Int32(i: int) | Int64(i: int)
    | Float32(f: FloatValue) | Float64(f: FloatValue) | Decimal(text: string)
    | Text(text: string) | Blob(bytes: seq<bv8>) | Timestamp(micros: int) | TimestampTz(micros: int)
    | Native(display: string) | Other(category: string, payload: string)

  datatype Status = Equal | TolerantEqual | Unequal | Incomparable | ConversionFailed

  /** The functions of other libraries a comparison calls. */
  datatype Library = Library(
    showFloat: FloatValue -> string, json: Value -> string, parseFloat: string -> Option<FloatValue>,
    foldText: (Tolerance, string) -> string, sha256: seq<bv8> -> string)

  datatype Tolerance = Tolerance(
    numericAbsolute: Option<real>, numericRelative: Option<real>, timestampMicros: Option<nat>,
    unicodeForm: Option<string>, trimOuterWhitespace: bool, caseFold: bool, binaryDigest: bool)

  predicate IsNull(v: Value) {
    v.Null? || v.TypedNull?
  }

  predicate IsInteger(v: Value) {
    v.Int16? || v.Int32? || v.Int64?
  }

  predicate IsNumeric(v: Value) {
    IsInteger(v) || v.Float32? || v.Float64? || v.Decimal?
  }

  predicate IsNaN(v: Value) {
    (v.Float32? || v.Float64?) && v.f.NotANumber?
  }

  function Category(v: Value): string {
    match v
    case Null => "null" case TypedNull(_) => "null" case Bool(_) => "bool"
    case Int16(_) => "int" case Int32(_) => "int" case Int64(_) => "int"
    case Float32(_) => "float" case Float64(_) => "float" case Decimal(_) => "float"
    case Text(_) => "text" case Blob(_) => "blob"
    case Timestamp(_) => "timestamp" case TimestampTz(_) => "timestamptz"
    case Native(_) => "native" case Other(category, _) => category
  }

  /** `exact_value_equal`: the derived equality of two floats that are not a number is false. */
  predicate ExactEqual(a: Value, b: Value) {
    if IsInteger(a) && IsInteger(b) then a.i == b.i
    else if a.Decimal? && b.Decimal? then D.Normalize(a.text).Some? && D.Normalize(a.text) == D.Normalize(b.text)
    else if a.Decimal? && IsInteger(b) then D.Normalize(a.text) == Some(D.IntText(b.i))
    else if IsInteger(a) && b.Decimal? then D.Normalize(b.text) == Some(D.IntText(a.i))
    else a == b && !IsNaN(a)
  }

  function CanonicalKey(lib: Library, v: Value): string {
    if IsNull(v) then "null"
    else if IsInteger(v) then "number:" + D.IntText(v.i)
    else if v.Decimal? then
      var t := D.Normalize(v.text);
      if t.Some? then "number:" + t.value else "invalid_decimal:" + v.text
    else if (v.Float32? || v.Float64?) && v.f.Finite? then "number:" + lib.showFloat(v.f)
    else if v.Float32? then "float32:" + lib.showFloat(v.f)
    else if v.Float64? then "float64:" + lib.showFloat(v.f)
    else lib.json(v)
  }

  // ----- Exact equality -----

  /** Integers, and decimals that parse. */
  predicate Readable(v: Value) {
    IsInteger(v) || (v.Decimal? && D.Parse(v.text).Some?)
  }

  function NumberOf(v: Value): real
    requires Readable(v)
  {
    if v.Decimal? then D.Denoted(v.text) else v.i as real
  }

  /** The text both sides of an exact comparison come down to. */
  function Spelling(v: Value): string
    requires Readable(v)
  {
    if v.Decimal? then D.Normalize(v.text).value else D.IntText(v.i)
  }

  lemma {:induction false} SpellingIffNumber(a: Value, b: Value)
    requires Readable(a) && Readable(b)
    ensures Spelling(a) == Spelling(b) <==> NumberOf(a) == NumberOf(b)
  {
    hide D.Parse, D.Normalize, D.IntText, D.Denoted;
    var s := SpellingText(a);
    var t := SpellingText(b);
    D.NormalizeIffSameNumber(s, t);
  }

  /** A string that normalizes to the spelling and denotes the number. */
  lemma {:induction false} SpellingText(v: Value) returns (s: string)
    requires Readable(v)
    ensures D.Parse(s).Some? && D.Normalize(s) == Some(Spelling(v)) && D.Denoted(s) == NumberOf(v)
  {
    hide D.IntText, D.Denoted;
    if v.Decimal? {
      s := v.text;
    } else {
      s := D.IntText(v.i);
      D.IntTextDenotes(v.i);
    }
  }

  lemma {:induction false} IntegersBySpelling(a: Value, b: Value)
    requires IsInteger(a) && IsInteger(b)
    ensures a.i == b.i <==> Spelling(a) == Spelling(b)
  {
    SpellingIffNumber(a, b);
  }

  /**
   * On integers and decimals that parse, exact equality is equality of the numbers, and two values get
   * one canonical key exactly when they are equal.
   */
  lemma {:induction false} ExactIffSameNumber(lib: Library, a: Value, b: Value)
    requires Readable(a) && Readable(b)
    ensures ExactEqual(a, b) <==> NumberOf(a) == NumberOf(b)
    ensures CanonicalKey(lib, a) == CanonicalKey(lib, b) <==> NumberOf(a) == NumberOf(b)
  {
    hide D.IntText, D.Denoted, D.Reduce, D.Render, D.Trim;
    SpellingIffNumber(a, b);
    if IsInteger(a) && IsInteger(b) {
      IntegersBySpelling(a, b);
    }
    assert CanonicalKey(lib, a) == "number:" + Spelling(a) && CanonicalKey(lib, b) == "number:" + Spelling(b);
    assert ("number:" + Spelling(a))[7..] == Spelling(a) && ("number:" + Spelling(b))[7..] == Spelling(b);
  }

  /** Exact equality relates a value to itself unless it is a malformed decimal or not a number. */
  lemma {:induction false} ExactReflexiveIff(v: Value)
    ensures ExactEqual(v, v) <==> !(v.Decimal? && D.Parse(v.text).None?) && !IsNaN(v)
  {
    hide D.Parse, D.Reduce, D.Render;
  }

  /** Nothing else equals a malformed decimal, and exact equality is symmetric and transitive on all values. */
  lemma {:induction false} ExactPartialEquivalence(a: Value, b: Value, c: Value)
    ensures ExactEqual(a, b) <==> ExactEqual(b, a)
    ensures ExactEqual(a, b) && ExactEqual(b, c) ==> ExactEqual(a, c)
  {
    hide D.Normalize, D.IntText;
    if IsInteger(a) && b.Decimal? && IsInteger(c) && ExactEqual(a, b) && ExactEqual(b, c) {
      IntegersBySpelling(a, c);
    }
    if a.Decimal? && IsInteger(b) && IsInteger(c) && ExactEqual(a, b) && ExactEqual(b, c) {
      IntegersBySpelling(b, c);
    }
  }

  /** A decimal that is not equal to itself. */
  lemma {:induction false} MalformedDecimalExample()
    ensures !ExactEqual(Decimal("x"), Decimal("x"))
  {
    assert Cut("", '.') == ("", None);
    assert "x"[1..] == "";
    assert D.Trim("x") == "x";
    assert Cut("x"[1..], '.') == ("", None);
    assert ["x"[0]] + "" == "x";
  }

  // ----- Cells -----

  function NumericFloat(lib: Library, v: Value): Option<FloatValue> {
    if IsInteger(v) then Some(Finite(v.i as real))
    else if v.Float32? || v.Float64? then Some(v.f)
    else if v.Decimal? then lib.parseFloat(v.text)
    else None
  }

  function Abs(x: real): real {
    if x < 0.0 then -x else x
  }

  // Float arithmetic on the infinite values, the finite ones being exact.

  function Distance(a: FloatValue, b: FloatValue): FloatValue {
    if a.Finite? && b.Finite? then Finite(Abs(a.r - b.r))
    else if a.NotANumber? || b.NotANumber? || a == b then NotANumber(0)
    else Infinite(false)
  }

  function Magnitude(a: FloatValue): FloatValue {
    match a
    case Finite(r) => Finite(Abs(r))
    case Infinite(_) => Infinite(false)
    case NotANumber(_) => a
  }

  /** `f64::max` passes over what is not a number. */
  function Larger(a: FloatValue, b: FloatValue): FloatValue {
    if a.NotANumber? then b
    else if b.NotANumber? then a
    else if AtMost(a, b) then b
    else a
  }

  function Scaled(m: real, a: FloatValue): FloatValue {
    match a
    case Finite(r) => Finite(m * r)
    case Infinite(negative) => if m == 0.0 then NotANumber(0) else Infinite(negative != (m < 0.0))
    case NotANumber(_) => a
  }

  predicate AtMost(a: FloatValue, b: FloatValue) {
    if a.NotANumber? || b.NotANumber? then false
    else if a.Finite? && b.Finite? then a.r <= b.r
    else a == b || a == Infinite(true) || b == Infinite(false)
  }

  /** The difference of two numbers against the two bounds. */
  predicate NumbersTolerated(t: Tolerance, a: FloatValue, b: FloatValue) {
    && !a.NotANumber? && !b.NotANumber?
    && ((t.numericAbsolute.Some? && AtMost(Distance(a, b), Finite(t.numericAbsolute.value)))
        || (t.numericRelative.Some?
            && AtMost(Distance(a, b), Scaled(t.numericRelative.value, Larger(Magnitude(a), Magnitude(b))))))
  }

  predicate TimesTolerated(t: Tolerance, a: int, b: int) {
    t.timestampMicros.Some? && (if a < b then b - a else a - b) <= t.timestampMicros.value
  }

  predicate SameFamily(a: Value, b: Value) {
    (IsNumeric(a) && IsNumeric(b)) || Category(a) == Category(b)
  }

  function Tolerated(holds: bool): Status {
    if holds then TolerantEqual else Unequal
  }

  /** `compare_value` */
  function CompareValue(lib: Library, a: Value, b: Value, tolerance: Option<Tolerance>): Status {
    if IsNull(a) || IsNull(b) then if IsNull(a) && IsNull(b) then Equal else Unequal
    else if ExactEqual(a, b) then Equal
    else if a.Native? || b.Native? then Incomparable
    else if tolerance.None? then if SameFamily(a, b) then Unequal else Incomparable
    else
      var t := tolerance.value;
      if IsNumeric(a) && IsNumeric(b) then
        var x, y := NumericFloat(lib, a), NumericFloat(lib, b);
        if x.None? || y.None? then ConversionFailed else Tolerated(NumbersTolerated(t, x.value, y.value))
      else if a.Timestamp? && b.Timestamp? then Tolerated(TimesTolerated(t, a.micros, b.micros))
      else if a.TimestampTz? && b.TimestampTz? then Tolerated(TimesTolerated(t, a.micros, b.micros))
      else if a.Text? && b.Text? then Tolerated(lib.foldText(t, a.text) == lib.foldText(t, b.text))
      else if a.Blob? && b.Blob? && t.binaryDigest then Tolerated(lib.sha256(a.bytes) == lib.sha256(b.bytes))
      else if SameFamily(a, b) then Unequal else Incomparable
  }

  /** The verdict on two cells does not depend on which side they are on. */
  lemma {:induction false} CompareSymmetric(lib: Library, a: Value, b: Value, tolerance: Option<Tolerance>)
    ensures CompareValue(lib, a, b, tolerance) == CompareValue(lib, b, a, tolerance)
  {
    hide ExactEqual, NumericFloat, Category, IsNumeric, NumbersTolerated, TimesTolerated;
    ExactPartialEquivalence(a, b, a);
    if tolerance.Some? {
      var t := tolerance.value;
      forall x, y ensures NumbersTolerated(t, x, y) == NumbersTolerated(t, y, x) { NumbersSymmetric(t, x, y); }
      forall i, j ensures TimesTolerated(t, i, j) == TimesTolerated(t, j, i) { TimesSymmetric(t, i, j); }
    }
  }

  lemma {:induction false} NumbersSymmetric(t: Tolerance, a: FloatValue, b: FloatValue)
    ensures NumbersTolerated(t, a, b) == NumbersTolerated(t, b, a)
  {
  }

  lemma {:induction false} TimesSymmetric(t: Tolerance, a: int, b: int)
    ensures TimesTolerated(t, a, b) == TimesTolerated(t, b, a)
  {
  }

  /**
   * Where a value that is not finite takes part, two different numbers pass for equal exactly under a
   * positive relative bound: their distance and the bound are then both infinite. What is not a number
   * never passes.
   */
  lemma {:induction false} NonFiniteToleratedIff(lib: Library, a: Value, b: Value, t: Tolerance)
    requires IsNumeric(a) && IsNumeric(b) && NumericFloat(lib, a).Some? && NumericFloat(lib, b).Some?
    requires !NumericFloat(lib, a).value.Finite? || !NumericFloat(lib, b).value.Finite?
    ensures CompareValue(lib, a, b, Some(t)) == TolerantEqual <==>
      && !ExactEqual(a, b) && NumericFloat(lib, a) != NumericFloat(lib, b)
      && !NumericFloat(lib, a).value.NotANumber? && !NumericFloat(lib, b).value.NotANumber?
      && t.numericRelative.Some? && t.numericRelative.value > 0.0
  {
    hide ExactEqual;
  }

  /** Infinity passes for zero. */
  lemma {:induction false} InfinityExample(lib: Library)
    ensures
      var t := Tolerance(None, Some(0.5), None, None, false, false, false);
      CompareValue(lib, Float64(Infinite(false)), Float64(Finite(0.0)), Some(t)) == TolerantEqual
  {
    NonFiniteToleratedIff(lib, Float64(Infinite(false)), Float64(Finite(0.0)), Tolerance(None, Some(0.5), None, None, false, false, false));
  }

  /** Without a tolerance cells are equal when both are null or exactly equal, and a verdict needs one family. */
  lemma {:induction false} StrictVerdicts(lib: Library, a: Value, b: Value)
    ensures CompareValue(lib, a, b, None) == Equal <==> (IsNull(a) && IsNull(b)) || (!IsNull(a) && !IsNull(b) && ExactEqual(a, b))
    ensures CompareValue(lib, a, b, None) != TolerantEqual && CompareValue(lib, a, b, None) != ConversionFailed
    ensures Readable(a) && Readable(b) ==> CompareValue(lib, a, b, None) == if NumberOf(a) == NumberOf(b) then Equal else Unequal
  {
    hide D.Normalize, D.IntText, D.Parse;
    if Readable(a) && Readable(b) {
      ExactIffSameNumber(lib, a, b);
    }
  }
}
