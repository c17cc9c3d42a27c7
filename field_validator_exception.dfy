/**
 * The message of a field-validator exception: for a list of validator
 * results, one line per result naming the field and the result's missing
 * fields, joined by the line separator; for a single result, that result's
 * own message. Code and previous exception are passed through unchanged.
 */
module FieldValidation {
  import opened Wrappers

  /** A validator result: the names of the invalid (missing) fields, and its own message. */
  datatype ValidatorResult = ValidatorResult(invalidData: seq<string>, message: string)

  /** The constructor's `$validators` argument: an array of results or a single result. */
  datatype Validators = ResultList(results: seq<ValidatorResult>) | SingleResult(result: ValidatorResult)

  /** An exception as the base class stores it: message, code and previous exception. */
  datatype Exception = Exception(message: string, code: int, previous: Option<Exception>)

  const LinePrefix: string := "Items contained within the "
  const LineMiddle: string := " field are missing the following fields: "

  /** `PHP_EOL` on the platforms the module targets. */
  const LineSeparator: string := "\n"

  /** `implode($sep, $parts)`: the parts in order, with `sep` between neighbours. */
  function Implode(sep: string, parts: seq<string>): string
  {
    if |parts| == 0 then ""
    else if |parts| == 1 then parts[0]
    else parts[0] + sep + Implode(sep, parts[1..])
  }

  /** The line for one validator result. */
  function FormatLine(field: string, invalidData: seq<string>): (line: string)
    ensures |LinePrefix| <= |line| && line[..|LinePrefix|] == LinePrefix
    ensures line != ""
  {
    LinePrefix + field + LineMiddle + Implode(", ", invalidData)
  }

  /** One formatted line per result, in the order of the results. */
  function Lines(field: string, results: seq<ValidatorResult>): (lines: seq<string>)
    ensures |lines| == |results|
    ensures forall i :: 0 <= i < |results| ==> lines[i] == FormatLine(field, results[i].invalidData)
  {
    if results == [] then []
    else [FormatLine(field, results[0].invalidData)] + Lines(field, results[1..])
  }

  /** `array_filter($lines, 'strlen')`: the non-empty lines, in order. */
  function FilterNonEmpty(lines: seq<string>): (kept: seq<string>)
    ensures |kept| <= |lines|
    ensures forall line :: line in kept <==> line in lines && line != ""
  {
    if lines == [] then []
    else if lines[0] == "" then FilterNonEmpty(lines[1..])
    else [lines[0]] + FilterNonEmpty(lines[1..])
  }

  /**
   * The message the exception carries, stated without the filter: the lines
   * joined by the separator, or the single result's own message.
   */
  function ExpectedMessage(field: string, validators: Validators): string
  {
    match validators
    case ResultList(results) => Implode(LineSeparator, Lines(field, results))
    case SingleResult(result) => result.message
  }

  /**
   * The constructor of `FieldValidatorException`: builds the lines in a loop,
   * filters out empty ones, joins them, and hands message, code and previous
   * exception to the base class.
   */
  method NewFieldValidatorException(field: string, validators: Validators, code: int, previous: Option<Exception>)
    returns (e: Exception)
    ensures e.message == ExpectedMessage(field, validators)
    ensures e.code == code && e.previous == previous
  {
    var message: string;
    if validators.ResultList? {
      var results := validators.results;
      var messages: seq<string> := [];
      for i := 0 to |results|
        invariant messages == Lines(field, results[..i])
      {
        LinesOfLongerPrefix(field, results, i);
        messages := messages + [FormatLine(field, results[i].invalidData)];
      }
      assert results[..|results|] == results;
      FilterKeepsFormattedLines(field, results);
      messages := FilterNonEmpty(messages);
      message := Implode(LineSeparator, messages);
    } else {
      message := validators.result.message;
    }
    e := Exception(message, code, previous);
  }

  /** The lines of two lists of results are the lines of each, one after the other. */
  lemma {:induction false} LinesAppend(field: string, a: seq<ValidatorResult>, b: seq<ValidatorResult>)
    ensures Lines(field, a + b) == Lines(field, a) + Lines(field, b)
  {
    if a == [] {
      assert a + b == b;
    } else {
      assert (a + b)[1..] == a[1..] + b;
      LinesAppend(field, a[1..], b);
    }
  }

  /** The lines of the first `i + 1` results: those of the first `i`, then the line of result `i`. */
  lemma LinesOfLongerPrefix(field: string, results: seq<ValidatorResult>, i: nat)
    requires i < |results|
    ensures Lines(field, results[..i + 1]) == Lines(field, results[..i]) + [FormatLine(field, results[i].invalidData)]
  {
    assert results[..i + 1] == results[..i] + [results[i]];
    LinesAppend(field, results[..i], [results[i]]);
  }

  /** A list whose lines are all non-empty passes the filter unchanged. */
  lemma {:induction false} FilterKeepsNonEmpty(lines: seq<string>)
    requires forall i :: 0 <= i < |lines| ==> lines[i] != ""
    ensures FilterNonEmpty(lines) == lines
  {
    if lines != [] {
      FilterKeepsNonEmpty(lines[1..]);
    }
  }

  /**
   * The filter keeps order: filtering two lists one after the other gives the
   * two filtered lists one after the other. With the membership clause of
   * `FilterNonEmpty` on one-line lists, this fixes the result line by line.
   */
  lemma {:induction false} FilterAppend(a: seq<string>, b: seq<string>)
    ensures FilterNonEmpty(a + b) == FilterNonEmpty(a) + FilterNonEmpty(b)
  {
    if a != [] {
      assert (a + b)[0] == a[0];
      assert (a + b)[1..] == a[1..] + b;
      FilterAppend(a[1..], b);
    } else {
      assert a + b == b;
    }
  }

  /** Every formatted line starts with the fixed prefix, so the filter removes none. */
  lemma FilterKeepsFormattedLines(field: string, results: seq<ValidatorResult>)
    ensures FilterNonEmpty(Lines(field, results)) == Lines(field, results)
  {
    FilterKeepsNonEmpty(Lines(field, results));
  }

  /** Joining two non-empty lists: the joins of each, with one separator between. */
  lemma {:induction false} ImplodeAppend(sep: string, a: seq<string>, b: seq<string>)
    requires a != [] && b != []
    ensures Implode(sep, a + b) == Implode(sep, a) + sep + Implode(sep, b)
  {
    if |a| == 1 {
      assert (a + b)[1..] == b;
    } else {
      assert (a + b)[1..] == a[1..] + b;
      ImplodeAppend(sep, a[1..], b);
    }
  }

  /** The message of an array of results is empty exactly when the array is. */
  lemma EmptyMessageIffNoResults(field: string, results: seq<ValidatorResult>)
    ensures ExpectedMessage(field, ResultList(results)) == "" <==> results == []
  {
    var lines := Lines(field, results);
    if results != [] {
      ImplodeStartsWithFirst(LineSeparator, lines);
    }
  }

  /** A join of a non-empty list starts with its first part. */
  lemma ImplodeStartsWithFirst(sep: string, parts: seq<string>)
    requires parts != []
    ensures |parts[0]| <= |Implode(sep, parts)| && Implode(sep, parts)[..|parts[0]|] == parts[0]
  {
    if |parts| > 1 {
      assert Implode(sep, parts) == parts[0] + (sep + Implode(sep, parts[1..]));
    }
  }

  /** A single result in an array gives exactly its own line. */
  lemma SingleResultOneLine(field: string, result: ValidatorResult)
    ensures ExpectedMessage(field, ResultList([result]))
         == LinePrefix + field + LineMiddle + Implode(", ", result.invalidData)
  {
  }

  /**
   * Lines appear in the order of the results: one more result appends one
   * separator and its line to the message.
   */
  lemma MessageAppendsLine(field: string, results: seq<ValidatorResult>, result: ValidatorResult)
    requires results != []
    ensures ExpectedMessage(field, ResultList(results + [result]))
         == ExpectedMessage(field, ResultList(results)) + LineSeparator + FormatLine(field, result.invalidData)
  {
    LinesAppend(field, results, [result]);
    ImplodeAppend(LineSeparator, Lines(field, results), Lines(field, [result]));
  }

  /** The number of occurrences of `c` in `s`. */
  function Count(c: char, s: string): (n: nat)
    ensures n <= |s|
  {
    if s == [] then 0 else (if s[0] == c then 1 else 0) + Count(c, s[1..])
  }

  lemma {:induction false} CountAppend(c: char, a: string, b: string)
    ensures Count(c, a + b) == Count(c, a) + Count(c, b)
  {
    if a == [] {
      assert a + b == b;
    } else {
      assert (a + b)[1..] == a[1..] + b;
      CountAppend(c, a[1..], b);
    }
  }

  /**
   * When neither the field name nor any invalid field name holds a newline,
   * the message has one line per result: exactly `|results| - 1` separators.
   */
  lemma {:induction false} OneLinePerResult(field: string, results: seq<ValidatorResult>)
    requires results != []
    requires Count('\n', field) == 0
    requires forall i, j :: 0 <= i < |results| && 0 <= j < |results[i].invalidData| ==>
      Count('\n', results[i].invalidData[j]) == 0
    ensures Count('\n', ExpectedMessage(field, ResultList(results))) == |results| - 1
  {
    var last := results[|results| - 1];
    LineHasNoNewline(field, last.invalidData);
    if |results| > 1 {
      var init := results[..|results| - 1];
      assert init + [last] == results;
      OneLinePerResult(field, init);
      MessageAppendsLine(field, init, last);
      var m := ExpectedMessage(field, ResultList(init));
      CountAppend('\n', m, LineSeparator);
      CountAppend('\n', m + LineSeparator, FormatLine(field, last.invalidData));
    } else {
      assert ExpectedMessage(field, ResultList(results)) == FormatLine(field, last.invalidData);
    }
  }

  /** A formatted line holds no newline when its field names hold none. */
  lemma LineHasNoNewline(field: string, invalidData: seq<string>)
    requires Count('\n', field) == 0
    requires forall j :: 0 <= j < |invalidData| ==> Count('\n', invalidData[j]) == 0
    ensures Count('\n', FormatLine(field, invalidData)) == 0
  {
    ImplodeNoNewline(invalidData);
    PrefixHasNoNewline();
    MiddleHasNoNewline();
    NoNewlineInFour(LinePrefix, field, LineMiddle, Implode(", ", invalidData));
  }

  lemma NoNewlineInFour(a: string, b: string, c: string, d: string)
    requires Count('\n', a) == 0 && Count('\n', b) == 0 && Count('\n', c) == 0 && Count('\n', d) == 0
    ensures Count('\n', a + b + c + d) == 0
  {
    CountAppend('\n', a, b);
    CountAppend('\n', a + b, c);
    CountAppend('\n', a + b + c, d);
  }

  /** The fixed parts of a line hold no newline. */
  lemma PrefixHasNoNewline()
    ensures Count('\n', LinePrefix) == 0
  {
    AbsentCountsZero('\n', LinePrefix);
  }

  lemma MiddleHasNoNewline()
    ensures Count('\n', LineMiddle) == 0
  {
    AbsentCountsZero('\n', LineMiddle);
  }

  lemma CommaHasNoNewline()
    ensures Count('\n', ", ") == 0
  {
    AbsentCountsZero('\n', ", ");
  }

  lemma {:induction false} AbsentCountsZero(c: char, s: string)
    requires c !in s
    ensures Count(c, s) == 0
  {
    if s != [] {
      assert s[0] != c;
      assert forall x :: x in s[1..] ==> x in s;
      AbsentCountsZero(c, s[1..]);
    }
  }

  lemma {:induction false} ImplodeNoNewline(parts: seq<string>)
    requires forall j :: 0 <= j < |parts| ==> Count('\n', parts[j]) == 0
    ensures Count('\n', Implode(", ", parts)) == 0
  {
    if |parts| > 1 {
      ImplodeNoNewline(parts[1..]);
      CommaHasNoNewline();
      CountAppend('\n', parts[0], ", ");
      CountAppend('\n', parts[0] + ", ", Implode(", ", parts[1..]));
    }
  }
}
