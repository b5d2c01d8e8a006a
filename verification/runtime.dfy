/**
  * The pieces of the Ruby runtime the quiz code leans on: dynamically typed
  * values, `blank?`, `String#to_i`, `Integer#to_s` and the exceptions that
  * the quiz code lets escape to the request.
  */
module Runtime {

  datatype Option<T> = None | Some(value: T)

  /** The exceptions the quiz code raises and does not rescue (each ends the request). */
  datatype Failure =
    | NoMethod          // a method called on nil, or a setter that does not exist
    | IndexOutOfRange   // a negative array index beyond the start of the array
    | ParameterMissing  // `params.require` on an absent or empty key
    | DecodeFailed      // an `encoded_params` token that is not valid base64/deflate
    | InvalidLocale     // `I18n.locale=` with a locale that is not available
    | UnknownAttribute  // assigning an attribute the record's table has no column for

  datatype Result<T> = Ok(value: T) | Raised(failure: Failure)

  /** A Ruby value as the quiz code handles it: nil, a string, an integer or an array. */
  datatype Value = Nil | Str(s: string) | Num(n: int) | List(items: seq<Value>)

  /** A parameter hash or an attribute hash with string keys. */
  type Attrs = map<string, Value>

  /** The ASCII whitespace of Ruby's `to_i`, `strip` and `blank?`: space, \t, \n, \v, \f, \r. */
  predicate IsSpace(c: char) {
    c == ' ' || '\t' <= c <= '\r'
  }

  predicate IsDigit(c: char) {
    '0' <= c <= '9'
  }

  predicate AllDigits(s: string) {
    forall i :: 0 <= i < |s| ==> IsDigit(s[i])
  }

  /** ActiveSupport's `blank?`: nil, a whitespace-only string, or an empty array; never an integer. */
  predicate Blank(v: Value)
    ensures v == Nil || v == Str("") || v == List([]) ==> Blank(v)
    ensures v.Num? ==> !Blank(v)
  {
    match v
    case Nil => true
    case Str(s) => forall i :: 0 <= i < |s| ==> IsSpace(s[i])
    case Num(_) => false
    case List(xs) => |xs| == 0
  }

  /** What Rails' strong parameters call a permitted scalar (anything but an array here). */
  predicate IsScalar(v: Value) {
    !v.List?
  }

  /** `r` keeps some of the elements of `s`, in their order in `s`. */
  predicate Subsequence<T(==)>(r: seq<T>, s: seq<T>)
    decreases |s|
  {
    if r == [] then true
    else if s == [] then false
    else (r[0] == s[0] && Subsequence(r[1..], s[1..])) || Subsequence(r, s[1..])
  }

  /** `h[k]` on a hash: nil when the key is absent. */
  function Lookup(m: Attrs, k: string): (v: Value)
    ensures k !in m ==> v == Nil
  {
    if k in m then m[k] else Nil
  }

  function DigitChar(d: nat): (c: char)
    requires d < 10
    ensures IsDigit(c)
  {
    ('0' as int + d) as char
  }

  function DigitValue(c: char): (d: nat)
    requires IsDigit(c)
    ensures d < 10
  {
    c as int - '0' as int
  }

  /** `Integer#to_s` for a natural number. */
  function NatToString(n: nat): (s: string)
    ensures |s| > 0 && AllDigits(s)
    decreases n
  {
    if n < 10 then [DigitChar(n)] else NatToString(n / 10) + [DigitChar(n % 10)]
  }

  /** `Integer#to_s`. */
  function IntToString(i: int): (s: string)
    ensures |s| > 0
    ensures i >= 0 ==> AllDigits(s)
  {
    if i < 0 then "-" + NatToString(-i) else NatToString(i)
  }

  /** The number a string of decimal digits denotes, most significant digit first. */
  function DigitsValue(ds: string): nat
    requires AllDigits(ds)
  {
    if ds == [] then 0 else DigitsValue(ds[..|ds| - 1]) * 10 + DigitValue(ds[|ds| - 1])
  }

  /** The longest prefix of `s` made of digits. */
  function LeadingDigits(s: string): (ds: string)
    ensures AllDigits(ds) && ds <= s
    ensures |ds| < |s| ==> !IsDigit(s[|ds|])
  {
    if s != [] && IsDigit(s[0]) then [s[0]] + LeadingDigits(s[1..]) else []
  }

  function SkipSpace(s: string): (t: string)
    ensures |t| <= |s| && t == s[|s| - |t|..]
    ensures t != [] ==> !IsSpace(t[0])
  {
    if s != [] && IsSpace(s[0]) then SkipSpace(s[1..]) else s
  }

  /**
    * Ruby's `String#to_i`: leading whitespace, an optional sign, then as many
    * decimal digits as follow; 0 when there are none.
    */
  function StrToI(s: string): int {
    var t := SkipSpace(s);
    if t != [] && t[0] == '-' then 0 - DigitsValue(LeadingDigits(t[1..]))
    else if t != [] && t[0] == '+' then DigitsValue(LeadingDigits(t[1..]))
    else DigitsValue(LeadingDigits(t))
  }

  /** `to_i` on a scalar value (arrays have no `to_i`: Ruby raises NoMethodError). */
  function ToI(v: Value): (r: int)
    requires IsScalar(v)
    ensures v == Nil || v == Str("") ==> r == 0
    ensures v.Num? ==> r == v.n && StrToI(IntToString(v.n)) == r
  {
    match v
    case Nil => 0
    case Str(s) => StrToI(s)
    case Num(n) => StrToIOfIntToString(n); n
  }

  lemma {:induction false} DigitsValueOfNatToString(n: nat)
    ensures DigitsValue(NatToString(n)) == n
    decreases n
  {
    var s := NatToString(n);
    if n >= 10 {
      DigitsValueOfNatToString(n / 10);
      assert s[..|s| - 1] == NatToString(n / 10);
    }
  }

  lemma {:induction false} LeadingDigitsOfDigits(s: string)
    requires AllDigits(s)
    ensures LeadingDigits(s) == s
  {
    if s != [] {
      LeadingDigitsOfDigits(s[1..]);
    }
  }

  /** `to_i` of a string of digits is the number it denotes. */
  lemma StrToIOfDigits(ds: string)
    requires ds != [] && AllDigits(ds)
    ensures StrToI(ds) == DigitsValue(ds)
    ensures StrToI("-" + ds) == 0 - DigitsValue(ds)
  {
    LeadingDigitsOfDigits(ds);
    assert !IsSpace(ds[0]) && ds[0] != '-' && ds[0] != '+';
    assert SkipSpace(ds) == ds;
    NegativeDigits(ds);
  }

  /** `to_i` of a minus sign followed by digits negates what the digits read as. */
  lemma NegativeDigits(ds: string)
    requires ds != [] && AllDigits(ds) && LeadingDigits(ds) == ds
    ensures StrToI("-" + ds) == 0 - DigitsValue(ds)
  {
    var t := "-" + ds;
    assert t[0] == '-' && !IsSpace(t[0]);
    assert SkipSpace(t) == t;
    assert t[1..] == ds;
  }

  /**
    * A string is blank exactly when the whitespace `to_i` skips is all of it,
    * so a blank string reads as 0.
    */
  lemma {:induction false} BlankIffAllSkipped(s: string)
    ensures Blank(Str(s)) <==> SkipSpace(s) == []
    ensures Blank(Str(s)) ==> StrToI(s) == 0
  {
    if s != [] {
      BlankIffAllSkipped(s[1..]);
      if IsSpace(s[0]) {
        assert Blank(Str(s)) <==> Blank(Str(s[1..])) by {
          if Blank(Str(s[1..])) {
            forall i | 0 <= i < |s| ensures IsSpace(s[i]) {
              if i > 0 { assert s[i] == s[1..][i - 1]; }
            }
          }
          if Blank(Str(s)) {
            forall i | 0 <= i < |s[1..]| ensures IsSpace(s[1..][i]) {
              assert s[1..][i] == s[i + 1];
            }
          }
        }
      } else {
        assert !Blank(Str(s)) by { assert !IsSpace(s[0]); }
      }
    }
  }

  /** A string without a single digit reads as 0. */
  lemma StrToIWithoutDigits(s: string)
    requires forall i :: 0 <= i < |s| ==> !IsDigit(s[i])
    ensures StrToI(s) == 0
  {
    var t := SkipSpace(s);
    forall i | 0 <= i < |t|
      ensures !IsDigit(t[i])
    {
      assert t[i] == s[|s| - |t| + i];
    }
    if t != [] && (t[0] == '-' || t[0] == '+') {
      assert t[1..] == [] || !IsDigit(t[1..][0]);
      assert LeadingDigits(t[1..]) == [];
    } else {
      assert LeadingDigits(t) == [];
    }
  }

  /** `to_s` followed by `to_i` gives the integer back. */
  lemma StrToIOfIntToString(i: int)
    ensures StrToI(IntToString(i)) == i
  {
    if i < 0 {
      DigitsValueOfNatToString(-i);
      StrToIOfDigits(NatToString(-i));
    } else {
      DigitsValueOfNatToString(i);
      StrToIOfDigits(NatToString(i));
    }
  }

  /** Distinct integers print differently. */
  lemma IntToStringInjective(a: int, b: int)
    requires IntToString(a) == IntToString(b)
    ensures a == b
  {
    StrToIOfIntToString(a);
    StrToIOfIntToString(b);
  }

  // ---------------------------------------------------------------------
  // Ruby Array indexing
  // ---------------------------------------------------------------------

  /**
    * `xs[i]` on a Ruby Array: a negative index counts from the end; an index
    * outside the array gives nil (here `None`).
    */
  function RubyAt<T>(xs: seq<T>, i: int): (r: Option<T>)
    ensures 0 <= i < |xs| ==> r == Some(xs[i])
    ensures -|xs| <= i < 0 ==> r == Some(xs[|xs| + i])
    ensures (i >= |xs| || i < -|xs|) <==> r.None?
  {
    if 0 <= i < |xs| then Some(xs[i])
    else if -|xs| <= i < 0 then Some(xs[|xs| + i])
    else None
  }
}
