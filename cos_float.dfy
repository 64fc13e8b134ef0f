/** COSFloat: a real number of the format, held as a decimal value and the
    text it is written as. The decimal arithmetic of BigDecimal and the
    conversion of a binary float to text are not modelled: they are the
    parameters of a DecimalLibrary. */
module CosFloat {
  import opened Wrappers

  /** The library routines COSFloat relies on, over a decimal type D and a
      binary float type F: new BigDecimal(String), which may refuse the text
      (NumberFormatException); String.valueOf(float); and toPlainString. */
  datatype DecimalLibrary<!D, !F> = DecimalLibrary(
    parse: string -> Option<D>,
    valueOf: F -> string,
    toPlainString: D -> string)

  datatype FloatError =
    /** NumberFormatException, from setValue (String.valueOf gives "NaN" or
        "Infinity", which BigDecimal refuses). */
    | NumberFormat
    /** The IOException of the string constructor, with its message. */
    | IOError(message: string)

  // ---------------------------------------------------------------- removeNullDigits

  predicate EndsWith(s: string, suffix: string)
  {
    |suffix| <= |s| && s[|s| - |suffix|..] == suffix
  }

  /** The loop of removeNullDigits: drops a final '0' as long as the text
      does not end with ".0". */
  function StripZeros(s: string): string
  {
    if EndsWith(s, "0") && !EndsWith(s, ".0") then StripZeros(s[..|s| - 1]) else s
  }

  /** removeNullDigits: only text with a '.' that does not already end with
      ".0" loses its final zeros. */
  function NullDigitsRemoved(s: string): string
  {
    if '.' in s && !EndsWith(s, ".0") then StripZeros(s) else s
  }

  /** removeNullDigits, with the loop that reassigns the string. */
  method RemoveNullDigits(value: string) returns (r: string)
    ensures r == NullDigitsRemoved(value)
  {
    r := value;
    if '.' in r && !EndsWith(r, ".0") {
      while EndsWith(r, "0") && !EndsWith(r, ".0")
        invariant StripZeros(r) == StripZeros(value)
        decreases |r|
      {
        r := r[..|r| - 1];
      }
    }
  }

  /** StripZeros removes a run of '0's from the end and nothing else, and
      stops at a text that does not end in '0' or that ends with ".0". */
  lemma {:induction false} StripZerosShape(s: string)
    ensures var t := StripZeros(s);
            && |t| <= |s| && s[..|t|] == t
            && (forall i :: |t| <= i < |s| ==> s[i] == '0')
            && (!EndsWith(t, "0") || EndsWith(t, ".0"))
    decreases |s|
  {
    if EndsWith(s, "0") && !EndsWith(s, ".0") {
      var s' := s[..|s| - 1];
      StripZerosShape(s');
      var t := StripZeros(s');
      assert s[..|t|] == s'[..|t|];
      assert s[|s| - 1] == '0';
    }
  }

  /** The result of removeNullDigits is a prefix of its input, and every
      character it removed is a '0'. */
  lemma OnlyZerosRemoved(s: string)
    ensures var r := NullDigitsRemoved(s);
            && |r| <= |s| && s[..|r|] == r
            && forall i :: |r| <= i < |s| ==> s[i] == '0'
  {
    StripZerosShape(s);
  }

  /** Text without a '.', or already ending with ".0", is left as it is. */
  lemma UnchangedWithoutFraction(s: string)
    requires '.' !in s || EndsWith(s, ".0")
    ensures NullDigitsRemoved(s) == s
  {
  }

  /** Text with a '.' keeps its '.', and then ends in '0' only as ".0". */
  lemma {:induction false} FractionKept(s: string)
    requires '.' in s
    ensures var r := NullDigitsRemoved(s);
            && '.' in r
            && (EndsWith(r, "0") ==> EndsWith(r, ".0"))
  {
    if !EndsWith(s, ".0") {
      StripZerosShape(s);
      var r := StripZeros(s);
      var i :| 0 <= i < |s| && s[i] == '.';
      assert i < |r| && r[i] == '.';
    }
  }

  /** Removing null digits twice is removing them once. */
  lemma Idempotent(s: string)
    ensures NullDigitsRemoved(NullDigitsRemoved(s)) == NullDigitsRemoved(s)
  {
    if '.' in s && !EndsWith(s, ".0") {
      FractionKept(s);
    }
  }

  // ---------------------------------------------------------------- the object

  /** The error of the string constructor. */
  function NotAFloat(aFloat: string): FloatError
  {
    IOError("Error expected floating point number actual='" + aFloat + "'")
  }

  class CosFloatValue<D> {
    var value: D
    var valueAsString: string

    constructor Of(d: D, text: string)
      ensures value == d && valueAsString == text
    {
      value := d;
      valueAsString := text;
    }

    /** setValue: the float goes through its decimal text, and the plain text
        of the decimal, without its null digits, is what gets written. When
        the decimal text is refused nothing changes. */
    method SetValue<F>(floatValue: F, lib: DecimalLibrary<D, F>) returns (err: Option<FloatError>)
      modifies this
      ensures lib.parse(lib.valueOf(floatValue)).None? <==> err.Some?
      ensures err.Some? ==> err.value == NumberFormat && value == old(value) && valueAsString == old(valueAsString)
      ensures err.None? ==>
                var d := lib.parse(lib.valueOf(floatValue)).value;
                value == d && valueAsString == NullDigitsRemoved(lib.toPlainString(d))
    {
      match lib.parse(lib.valueOf(floatValue)) {
        case None =>
          err := Some(NumberFormat);
        case Some(d) =>
          value := d;
          valueAsString := RemoveNullDigits(lib.toPlainString(d));
          err := None;
      }
    }

    /** writePDF: the text that goes to the output stream. */
    function WritePdf(): (text: string)
      reads this
      ensures text == valueAsString
    {
      valueAsString
    }
  }

  /** COSFloat(String): keeps the literal as it was written, with its
      decimal value; a literal BigDecimal refuses is an IOException. */
  method FromString<D, F>(aFloat: string, lib: DecimalLibrary<D, F>)
    returns (r: Result<CosFloatValue<D>, FloatError>)
    ensures lib.parse(aFloat).None? <==> r.Err?
    ensures r.Err? ==> r.error == NotAFloat(aFloat)
    ensures r.Ok? ==> fresh(r.value) && r.value.value == lib.parse(aFloat).value
                      && r.value.WritePdf() == aFloat
  {
    var parsed := lib.parse(aFloat);
    if parsed.None? {
      r := Err(NotAFloat(aFloat));
    } else {
      var f := new CosFloatValue<D>.Of(parsed.value, aFloat);
      r := Ok(f);
    }
  }

  /** COSFloat(float): setValue on a new object, whose exception the
      constructor passes on. */
  method FromFloat<D, F>(aFloat: F, lib: DecimalLibrary<D, F>)
    returns (r: Result<CosFloatValue<D>, FloatError>)
    ensures lib.parse(lib.valueOf(aFloat)).None? <==> r.Err?
    ensures r.Err? ==> r.error == NumberFormat
    ensures r.Ok? ==>
              var d := lib.parse(lib.valueOf(aFloat)).value;
              fresh(r.value) && r.value.value == d
              && r.value.WritePdf() == NullDigitsRemoved(lib.toPlainString(d))
  {
    var parsed := lib.parse(lib.valueOf(aFloat));
    if parsed.None? {
      r := Err(NumberFormat);
    } else {
      var text := RemoveNullDigits(lib.toPlainString(parsed.value));
      var f := new CosFloatValue<D>.Of(parsed.value, text);
      r := Ok(f);
    }
  }

}
