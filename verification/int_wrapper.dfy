/**
 * IntWrapper: a mutable box around one 32-bit integer whose equality,
 * hash and text form depend on the boxed value alone.
 */
module IntWrappers {
  import opened Wrappers
  import opened Numerics

  /** What `Equals(object? obj)` can be handed: null, a wrapper, or any other object. */
  datatype Obj = Null | Wrapper(w: IntWrapper) | Other {
    function Referents(): set<object> {
      if Wrapper? then {w} else {}
    }
  }

  const Prefix: string := "IntWrapper("
  const Suffix: string := ")"

  class IntWrapper {
    /** The auto-property `Value { get; set; }`. */
    var Value: int32

    constructor (value: int32)
      ensures Value == value
    {
      Value := value;
    }

    /** The property setter: only the boxed value changes. */
    method SetValue(value: int32)
      modifies this
      ensures Value == value
      ensures GetHashCode() == value
      ensures ParseText(ToString()) == Some(value)
    {
      Value := value;
    }

    /** `IntWrapper(<decimal value>)`: the prefix, the canonical decimal form of the value, the suffix. */
    function ToString(): (s: string)
      reads this
      ensures |s| > |Prefix| + |Suffix|
      ensures s[..|Prefix|] == Prefix && s[|s| - |Suffix|..] == Suffix
      ensures CanonicalDecimal(s[|Prefix|..|s| - |Suffix|])
      ensures ParseText(s) == Some(Value)
    {
      var s := Prefix + Decimal(Value as int) + Suffix;
      assert s[..|Prefix|] == Prefix && s[|s| - 1..] == Suffix;
      assert s[|Prefix|..|s| - 1] == Decimal(Value as int);
      s
    }

    /** True exactly for another wrapper holding the same value, that is, printing the same text. */
    function Equals(obj: Obj): (b: bool)
      reads this, obj.Referents()
      ensures b ==> obj.Wrapper?
      ensures obj.Wrapper? ==> (b <==> obj.w.ToString() == ToString())
    {
      obj.Wrapper? && Value == obj.w.Value
    }

    /** The hash of the boxed value, which for a 32-bit integer is the value itself: the number
        the text form shows. */
    function GetHashCode(): (h: int32)
      reads this
      ensures ParseText(ToString()) == Some(h)
    {
      Value
    }
  }

  /** Reads a wrapper's text form back into the boxed value. */
  function ParseText(s: string): Option<int32> {
    if |s| < |Prefix| + |Suffix| || s[..|Prefix|] != Prefix || s[|s| - |Suffix|..] != Suffix then None
    else
      match ParseDecimal(s[|Prefix|..|s| - |Suffix|])
      case Some(n) => if -0x8000_0000 <= n < 0x8000_0000 then Some(n as int32) else None
      case None => None
  }

  /** The text form is fixed: any text with the prefix, a canonical decimal and the suffix that
      reads as the wrapper's value is exactly the wrapper's text. */
  lemma ToStringIsExact(a: IntWrapper, s: string)
    requires |s| > |Prefix| + |Suffix| && s[..|Prefix|] == Prefix && s[|s| - |Suffix|..] == Suffix
    requires CanonicalDecimal(s[|Prefix|..|s| - |Suffix|])
    requires ParseText(s) == Some(a.Value)
    ensures s == a.ToString()
  {
    var d, t := s[|Prefix|..|s| - |Suffix|], a.ToString();
    var e := t[|Prefix|..|t| - |Suffix|];
    CanonicalDecimalIsDecimal(d);
    CanonicalDecimalIsDecimal(e);
    assert s == s[..|Prefix|] + d + s[|s| - |Suffix|..];
    assert t == t[..|Prefix|] + e + t[|t| - |Suffix|..];
  }

  lemma EqualsReflexive(a: IntWrapper)
    ensures a.Equals(Wrapper(a))
  {
  }

  lemma EqualsSymmetric(a: IntWrapper, b: IntWrapper)
    ensures a.Equals(Wrapper(b)) <==> b.Equals(Wrapper(a))
  {
  }

  lemma EqualsTransitive(a: IntWrapper, b: IntWrapper, c: IntWrapper)
    requires a.Equals(Wrapper(b)) && b.Equals(Wrapper(c))
    ensures a.Equals(Wrapper(c))
  {
  }

  lemma EqualsRejectsNonWrappers(a: IntWrapper)
    ensures !a.Equals(Null) && !a.Equals(Other)
  {
  }

  /** Equal wrappers hash alike; with a 32-bit hash, unequal ones never collide. */
  lemma HashAgreesWithEquals(a: IntWrapper, b: IntWrapper)
    ensures a.Equals(Wrapper(b)) <==> a.GetHashCode() == b.GetHashCode()
  {
  }

  /** Two wrappers print the same text exactly when they are equal. */
  lemma TextAgreesWithEquals(a: IntWrapper, b: IntWrapper)
    ensures a.Equals(Wrapper(b)) <==> a.ToString() == b.ToString()
  {
  }
}
