/**
 * Concrete columns and the types and flags the profiler gives them.
 */
module ProfilerExamples {
  import opened Wrappers
  import opened JsSemantics
  import opened DataProfiler

  /**
   * For a value with no whitespace and no upper-case letters, the boolean
   * test is membership in the six words.
   */
  lemma PlainWord(v: string)
    requires v != []
    requires forall i :: 0 <= i < |v| ==> !IsWhitespace(v[i]) && !('A' <= v[i] <= 'Z')
    ensures IsPresent(v)
    ensures IsBooleanWord(v) <==> v in {"true", "false", "1", "0", "yes", "no"}
  {
    TrimUnchanged(v);
    assert Lower(v) == v;
  }

  /** "1" and "0" are present boolean words. */
  lemma OneAndZeroAreBooleanWords(v: string)
    requires v == "1" || v == "0"
    ensures IsPresent(v) && IsBooleanWord(v)
  {
    PlainWord(v);
  }

  /** "10" and "20" are present and are not boolean words. */
  lemma TensAreNotBooleanWords(v: string)
    requires v == "10" || v == "20"
    ensures IsPresent(v) && !IsBooleanWord(v)
  {
    PlainWord(v);
  }

  /** "30" and "30.5" are present and are not boolean words. */
  lemma ThirtiesAreNotBooleanWords(v: string)
    requires v == "30" || v == "30.5"
    ensures IsPresent(v) && !IsBooleanWord(v)
  {
    PlainWord(v);
  }

  /** The values of the numeric examples are present and are not boolean words. */
  lemma NumberWords(js: Parsers, values: seq<string>)
    requires values == ["10", "20", "30"] || values == ["10", "20", "30.5"]
    requires js.toNumber(values[0]).Some? && js.toNumber(values[1]).Some? && js.toNumber(values[2]).Some?
    ensures forall i :: 0 <= i < |values| ==> IsPresent(values[i]) && !IsBooleanWord(values[i]) && js.toNumber(values[i]).Some?
  {
    forall i | 0 <= i < |values| ensures IsPresent(values[i]) && !IsBooleanWord(values[i]) && js.toNumber(values[i]).Some? {
      if i < 2 { TensAreNotBooleanWords(values[i]); } else { ThirtiesAreNotBooleanWords(values[i]); }
    }
  }

  /** `["1", "0", "1", "0"]` is boolean, whatever `Number` makes of it. */
  lemma BooleanBeforeNumericExample(js: Parsers, values: seq<string>)
    requires values == ["1", "0", "1", "0"]
    ensures InferType(js, values) == Boolean
  {
    forall i | 0 <= i < |values| ensures IsPresent(values[i]) && IsBooleanWord(values[i]) {
      OneAndZeroAreBooleanWords(values[i]);
    }
    AllBooleanWords(js, values);
  }

  /** `["10", "20", "30.5"]` is a float column once `Number` reads the three values. */
  lemma FloatExample(js: Parsers, values: seq<string>)
    requires values == ["10", "20", "30.5"]
    requires js.toNumber("10") == Some(10.0) && js.toNumber("20") == Some(20.0) && js.toNumber("30.5") == Some(30.5)
    ensures InferType(js, values) == Float
  {
    NumberWords(js, values);
    AllNumbers(js, values);
    ParsedNumbersAll(js, values);
    assert HasFraction(ParsedNumbers(js, values)[2]);
  }

  /** 10, 20 and 30 have no fractional part. */
  lemma WholeNumbers(nums: seq<real>)
    requires |nums| == 3 && nums[0] == 10.0 && nums[1] == 20.0 && nums[2] == 30.0
    ensures !AnyFraction(nums)
  {
    forall i | 0 <= i < |nums| ensures !HasFraction(nums[i]) {
      assert i == 0 || i == 1 || i == 2;
    }
  }

  /** `["10", "20", "30"]` is an integer column once `Number` reads the three values. */
  lemma IntegerExample(js: Parsers, values: seq<string>)
    requires values == ["10", "20", "30"]
    requires js.toNumber("10") == Some(10.0) && js.toNumber("20") == Some(20.0) && js.toNumber("30") == Some(30.0)
    ensures InferType(js, values) == Integer
  {
    NumberWords(js, values);
    AllNumbers(js, values);
    ParsedNumbersAll(js, values);
    WholeNumbers(ParsedNumbers(js, values));
  }
}
