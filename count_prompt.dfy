/**
 * Reading the number of keys (promptForKeyCount, main.go:57-81). Standard
 * input is the whole text the user types; each prompt reads one line with
 * ReadString('\n'), trims white space, parses a decimal integer with Atoi
 * and accepts it only if it is positive.
 */
module CountPrompt {
  import opened Wrappers

  /** Range of Go's `int` on a 64-bit platform. */
  const MinInt: int := -0x8000_0000_0000_0000
  const MaxInt: int := 0x7FFF_FFFF_FFFF_FFFF

  /** unicode.IsSpace: the Latin-1 spaces and the other White_Space code points. */
  predicate IsSpace(c: char)
  {
    var u := c as int;
    (0x09 <= u <= 0x0D) || u == 0x20 || u == 0x85 || u == 0xA0 || u == 0x1680
    || (0x2000 <= u <= 0x200A) || u == 0x2028 || u == 0x2029 || u == 0x202F
    || u == 0x205F || u == 0x3000
  }

  predicate AllSpace(s: string)
  {
    forall i :: 0 <= i < |s| ==> IsSpace(s[i])
  }

  /** `s` is empty or starts and ends with a character that is not white space. */
  predicate Trimmed(s: string)
  {
    s == [] || (!IsSpace(s[0]) && !IsSpace(s[|s| - 1]))
  }

  /** Number of white-space characters at the start of `s`. */
  function LeadingSpace(s: string): (n: nat)
    ensures n <= |s|
  {
    if s != [] && IsSpace(s[0]) then 1 + LeadingSpace(s[1..]) else 0
  }

  /** Number of white-space characters at the end of `s`. */
  function TrailingSpace(s: string): (n: nat)
    ensures n <= |s|
  {
    if s != [] && IsSpace(s[|s| - 1]) then 1 + TrailingSpace(s[..|s| - 1]) else 0
  }

  /** LeadingSpace counts the white space before the first other character, and all of it. */
  lemma {:induction false} LeadingSpaceIsMaximal(s: string)
    ensures var n := LeadingSpace(s);
      && (forall i :: 0 <= i < n ==> IsSpace(s[i]))
      && (n == |s| || !IsSpace(s[n]))
    decreases |s|
  {
    if s != [] && IsSpace(s[0]) {
      LeadingSpaceIsMaximal(s[1..]);
    }
  }

  /** TrailingSpace counts the white space after the last other character, and all of it. */
  lemma {:induction false} TrailingSpaceIsMaximal(s: string)
    ensures var n := TrailingSpace(s);
      && (forall i :: |s| - n <= i < |s| ==> IsSpace(s[i]))
      && (n == |s| || !IsSpace(s[|s| - n - 1]))
    decreases |s|
  {
    if s != [] && IsSpace(s[|s| - 1]) {
      var init := s[..|s| - 1];
      TrailingSpaceIsMaximal(init);
      assert TrailingSpace(s) == 1 + TrailingSpace(init);
      forall i | |s| - TrailingSpace(s) <= i < |s|
        ensures IsSpace(s[i])
      {
        if i < |s| - 1 { assert s[i] == init[i]; }
      }
    }
  }

  /** strings.TrimSpace: drops leading, then trailing, white space. */
  function TrimSpace(s: string): (r: string)
    ensures Trimmed(r) && |r| <= |s|
  {
    var left := s[LeadingSpace(s)..];
    LeadingSpaceIsMaximal(s);
    TrailingSpaceIsMaximal(left);
    left[..|left| - TrailingSpace(left)]
  }

  /** White space around a trimmed string is removed, and nothing else. */
  lemma TrimSpaceOfPadded(pre: string, s: string, post: string)
    requires AllSpace(pre) && AllSpace(post) && Trimmed(s)
    ensures TrimSpace(pre + s + post) == s
  {
    var t := pre + s + post;
    var lead := LeadingSpace(t);
    LeadingSpaceIsMaximal(t);
    if s == [] {
      assert AllSpace(t);
      assert lead == |t|;
    } else {
      assert t[|pre|] == s[0];
      assert lead == |pre|;
      var left := t[lead..];
      assert left == s + post;
      var trail := TrailingSpace(left);
      TrailingSpaceIsMaximal(left);
      assert left[|s| - 1] == s[|s| - 1];
      assert trail == |post|;
      assert left[..|left| - trail] == s;
    }
  }

  predicate IsDigit(c: char)
  {
    '0' <= c <= '9'
  }

  predicate AllDigits(s: string)
  {
    forall i :: 0 <= i < |s| ==> IsDigit(s[i])
  }

  /** The value of a string of decimal digits, most significant first. */
  function DigitsValue(s: string): nat
    requires AllDigits(s)
  {
    if s == [] then 0
    else DigitsValue(s[..|s| - 1]) * 10 + (s[|s| - 1] as int - '0' as int)
  }

  /**
   * strconv.Atoi: an optional '+' or '-' followed by at least one decimal
   * digit, whose value must fit in an int; anything else is an error.
   */
  function Atoi(s: string): (r: Option<int>)
    ensures r.Some? ==> MinInt <= r.value <= MaxInt
  {
    if s == [] then None
    else
      var signed := s[0] == '+' || s[0] == '-';
      var digits := if signed then s[1..] else s;
      if digits == [] || !AllDigits(digits) then None
      else
        var magnitude := DigitsValue(digits);
        var n := if s[0] == '-' then -(magnitude as int) else magnitude as int;
        if n < MinInt || MaxInt < n then None else Some(n)
  }

  /** Decimal digits of `n`, most significant first, without leading zeros. */
  function Decimal(n: nat): (r: string)
    ensures r != [] && AllDigits(r) && DigitsValue(r) == n
    ensures IsDigit(r[0])
  {
    var last := [(n % 10 + '0' as int) as char];
    if n < 10 then last
    else
      var r := Decimal(n / 10) + last;
      assert r[..|r| - 1] == Decimal(n / 10);
      r
  }

  /** strconv.Itoa: the decimal form of `n`, with '-' when negative. */
  function Itoa(n: int): string
  {
    if n < 0 then "-" + Decimal(-n) else Decimal(n)
  }

  /** Atoi reads back what Itoa writes, for every int. */
  lemma AtoiItoa(n: int)
    requires MinInt <= n <= MaxInt
    ensures Atoi(Itoa(n)) == Some(n)
  {
    if n < 0 {
      assert Itoa(n)[1..] == Decimal(-n);
    }
  }

  /** Why a line was not accepted as a count. */
  datatype Rejection = NotANumber | NotPositive

  datatype CountCheck = Accept(count: int) | Reject(reason: Rejection)

  /** The check applied to each line read (main.go:67-79). */
  function ValidateCount(line: string): (r: CountCheck)
    ensures r.Accept? ==> 0 < r.count <= MaxInt
  {
    match Atoi(TrimSpace(line))
    case None => Reject(NotANumber)
    case Some(n) => if n <= 0 then Reject(NotPositive) else Accept(n)
  }

  /** A positive count, with any white space around it, is accepted as that count. */
  lemma ValidateCountAcceptsPositive(pre: string, n: int, post: string)
    requires AllSpace(pre) && AllSpace(post) && 0 < n <= MaxInt
    ensures ValidateCount(pre + Itoa(n) + post) == Accept(n)
  {
    TrimSpaceOfPadded(pre, Itoa(n), post);
    AtoiItoa(n);
  }

  /** Zero and negative numbers, with any white space around them, are rejected as not positive. */
  lemma ValidateCountRejectsNonPositive(pre: string, n: int, post: string)
    requires AllSpace(pre) && AllSpace(post) && MinInt <= n <= 0
    ensures ValidateCount(pre + Itoa(n) + post) == Reject(NotPositive)
  {
    var s := Itoa(n);
    assert Trimmed(s) by {
      if n < 0 {
        assert s[0] == '-' && s[|s| - 1] == Decimal(-n)[|Decimal(-n)| - 1];
      }
    }
    TrimSpaceOfPadded(pre, s, post);
    AtoiItoa(n);
  }

  /**
   * A blank line, or text that does not end in a digit (such as "abc"), is
   * rejected as not a number, whatever white space surrounds it.
   */
  lemma ValidateCountRejectsNonNumbers(pre: string, s: string, post: string)
    requires AllSpace(pre) && AllSpace(post) && Trimmed(s)
    requires s == [] || !IsDigit(s[|s| - 1])
    ensures ValidateCount(pre + s + post) == Reject(NotANumber)
  {
    TrimSpaceOfPadded(pre, s, post);
    if s != [] {
      var digits := if s[0] == '+' || s[0] == '-' then s[1..] else s;
      assert digits != [] ==> digits[|digits| - 1] == s[|s| - 1];
    }
  }

  /** An optional sign followed by at least one decimal digit: the text Atoi can parse. */
  predicate Numeral(sign: string, digits: string)
  {
    (sign == "" || sign == "+" || sign == "-") && digits != [] && AllDigits(digits)
  }

  /** The mathematical value a numeral denotes, before any range check. */
  function SignedValue(sign: string, digits: string): int
    requires AllDigits(digits)
  {
    if sign == "-" then -(DigitsValue(digits) as int) else DigitsValue(digits)
  }

  /** What the count check decides for a line whose trimmed text denotes `v`. */
  function CheckValue(v: int): CountCheck
  {
    if v < MinInt || MaxInt < v then Reject(NotANumber)
    else if v <= 0 then Reject(NotPositive)
    else Accept(v)
  }

  /** Atoi parses every numeral to its value, or fails exactly when the value is out of range. */
  lemma AtoiOfNumeral(sign: string, digits: string)
    requires Numeral(sign, digits)
    ensures var v := SignedValue(sign, digits);
      Atoi(sign + digits) == if MinInt <= v <= MaxInt then Some(v) else None
  {
    var s := sign + digits;
    if sign == "" {
      assert s == digits;
    } else {
      assert s[0] == sign[0] && s[1..] == digits;
    }
  }

  /** Whatever Atoi parses is a numeral of the value it returns. */
  lemma AtoiNumeralForm(s: string) returns (sign: string, digits: string)
    requires Atoi(s).Some?
    ensures Numeral(sign, digits) && s == sign + digits
    ensures Atoi(s) == Some(SignedValue(sign, digits))
  {
    if s[0] == '+' || s[0] == '-' {
      sign, digits := s[..1], s[1..];
    } else {
      sign, digits := "", s;
    }
    assert s == sign + digits;
  }

  /** A stretch of white space, cut out of a line, is all white space. */
  lemma AllSpaceSlice(s: string, lo: nat, hi: nat)
    requires lo <= hi <= |s|
    requires forall i :: lo <= i < hi ==> IsSpace(s[i])
    ensures AllSpace(s[lo..hi])
  {
    forall i | 0 <= i < hi - lo
      ensures IsSpace(s[lo..hi][i])
    {
      assert s[lo..hi][i] == s[lo + i];
    }
  }

  /** A line is its leading white space followed by the rest. */
  lemma LeadingSplit(line: string) returns (pre: string)
    ensures AllSpace(pre) && line == pre + line[LeadingSpace(line)..]
  {
    var lead := LeadingSpace(line);
    pre := line[..lead];
    assert line == pre + line[lead..];
    assert AllSpace(pre) by {
      LeadingSpaceIsMaximal(line);
      AllSpaceSlice(line, 0, lead);
    }
  }

  /** A line is the rest followed by its trailing white space. */
  lemma TrailingSplit(line: string) returns (post: string)
    ensures AllSpace(post) && line == line[..|line| - TrailingSpace(line)] + post
  {
    var trail := TrailingSpace(line);
    post := line[|line| - trail..];
    assert line == line[..|line| - trail] + post;
    assert AllSpace(post) by {
      TrailingSpaceIsMaximal(line);
      AllSpaceSlice(line, |line| - trail, |line|);
    }
  }

  /** Every line is its trimmed text with white space before and after it. */
  lemma TrimSpaceSplit(line: string) returns (pre: string, post: string)
    ensures AllSpace(pre) && AllSpace(post) && line == pre + TrimSpace(line) + post
  {
    var left := line[LeadingSpace(line)..];
    var t := left[..|left| - TrailingSpace(left)];
    assert TrimSpace(line) == t;
    pre := LeadingSplit(line);
    post := TrailingSplit(left);
    Surround(line, pre, left, t, post);
  }

  lemma Surround(line: string, pre: string, left: string, t: string, post: string)
    requires line == pre + left && left == t + post
    ensures line == pre + t + post
  {
  }

  lemma Regroup(a: string, b: string, c: string, d: string)
    ensures a + (b + c) + d == a + b + c + d
  {
  }

  /**
   * A numeral with any white space around it is accepted as its value when
   * that value is a positive int, rejected as not positive when it is zero
   * or negative, and rejected as not a number when it overflows an int
   * ("007", "+5" and "-0" included).
   */
  lemma ValidateCountOfNumeral(pre: string, sign: string, digits: string, post: string)
    requires AllSpace(pre) && AllSpace(post) && Numeral(sign, digits)
    ensures ValidateCount(pre + sign + digits + post) == CheckValue(SignedValue(sign, digits))
  {
    var s := sign + digits;
    assert Trimmed(s) by {
      assert s[|s| - 1] == digits[|digits| - 1];
      assert s[0] == if sign == "" then digits[0] else sign[0];
    }
    assert pre + sign + digits + post == pre + s + post;
    TrimSpaceOfPadded(pre, s, post);
    AtoiOfNumeral(sign, digits);
  }

  /**
   * Conversely, a line not rejected as a number is a numeral in range with
   * white space around it, and the check decides on its value. So "1 2",
   * "1a2", "--5" and an overflowing numeral are all rejected as not numbers.
   */
  lemma ValidateCountNumeralForm(line: string) returns (pre: string, sign: string, digits: string, post: string)
    requires ValidateCount(line) != Reject(NotANumber)
    ensures AllSpace(pre) && AllSpace(post) && Numeral(sign, digits)
    ensures line == pre + sign + digits + post
    ensures MinInt <= SignedValue(sign, digits) <= MaxInt
    ensures ValidateCount(line) == CheckValue(SignedValue(sign, digits))
  {
    var t := TrimSpace(line);
    pre, post := TrimSpaceSplit(line);
    sign, digits := AtoiNumeralForm(t);
    Regroup(pre, sign, digits, post);
  }

  /** Why the count could not be read. */
  datatype ReadError = InputReadFailed

  /** Position of the first newline in `s`, if any. */
  function NewlineIndex(s: string): (r: Option<nat>)
    ensures r.Some? ==> r.value < |s| && s[r.value] == '\n'
    ensures forall i :: 0 <= i < |s| && (r.None? || i < r.value) ==> s[i] != '\n'
  {
    if s == [] then None
    else if s[0] == '\n' then Some(0)
    else match NewlineIndex(s[1..])
      case None => None
      case Some(k) => Some(k + 1)
  }

  /** A newline at `k` with none before it is the first newline. */
  lemma NewlineIndexAt(s: string, k: nat)
    requires k < |s| && s[k] == '\n'
    requires forall i :: 0 <= i < k ==> s[i] != '\n'
    ensures NewlineIndex(s) == Some(k)
  {
  }

  /** A line without newline, closed by one, is what ReadString returns first. */
  lemma ReadLine(line: string, rest: string)
    requires '\n' !in line
    ensures var input := line + "\n" + rest;
      && NewlineIndex(input) == Some(|line|)
      && input[..|line| + 1] == line + "\n" && input[|line| + 1..] == rest
  {
    var input := line + "\n" + rest;
    assert forall i :: 0 <= i < |line| ==> input[i] == line[i];
    NewlineIndexAt(input, |line|);
    assert input[..|line| + 1] == line + "\n";
  }

  /**
   * The outcome of promptForKeyCount on the input `input`: the count on the
   * first line that passes ValidateCount. ReadString reports an error when
   * no newline is left, so a last line without one is never accepted.
   */
  function FirstAccepted(input: string): (r: Result<int, ReadError>)
    ensures r.Success? ==> 0 < r.value <= MaxInt
    decreases |input|
  {
    match NewlineIndex(input)
    case None => Failure(InputReadFailed)
    case Some(k) =>
      match ValidateCount(input[..k + 1])
      case Accept(n) => Success(n)
      case Reject(_) => FirstAccepted(input[k + 1..])
  }

  /** Concatenation of lines, each closed by a newline. */
  function JoinLines(lines: seq<string>): string
  {
    if lines == [] then [] else lines[0] + "\n" + JoinLines(lines[1..])
  }

  /** A rejected line is read and the prompt repeats on what follows it. */
  lemma RejectedLineIsSkipped(line: string, rest: string)
    requires '\n' !in line && ValidateCount(line + "\n").Reject?
    ensures FirstAccepted(line + "\n" + rest) == FirstAccepted(rest)
  {
    ReadLine(line, rest);
  }

  /**
   * Any number of rejected lines before `rest` are read and skipped: the
   * prompt loop ends only on an accepted count or a failed read.
   */
  lemma {:induction false} RejectedLinesAreSkipped(lines: seq<string>, rest: string)
    requires forall j :: 0 <= j < |lines| ==> '\n' !in lines[j] && ValidateCount(lines[j] + "\n").Reject?
    ensures FirstAccepted(JoinLines(lines) + rest) == FirstAccepted(rest)
    decreases |lines|
  {
    if lines != [] {
      var tail := JoinLines(lines[1..]) + rest;
      assert JoinLines(lines) + rest == lines[0] + "\n" + tail;
      assert '\n' !in lines[0] && ValidateCount(lines[0] + "\n").Reject?;
      RejectedLineIsSkipped(lines[0], tail);
      assert forall j :: 0 <= j < |lines| - 1 ==> lines[1..][j] == lines[j + 1];
      RejectedLinesAreSkipped(lines[1..], rest);
    } else {
      assert JoinLines(lines) + rest == rest;
    }
  }

  /** The first accepted line ends the loop with its count. */
  lemma AcceptedLineEndsPrompt(line: string, rest: string)
    requires '\n' !in line && ValidateCount(line + "\n").Accept?
    ensures FirstAccepted(line + "\n" + rest) == Success(ValidateCount(line + "\n").count)
  {
    ReadLine(line, rest);
  }

  /** Input with no newline left ends the loop with a read error. */
  lemma NoLineIsReadError(input: string)
    requires '\n' !in input
    ensures FirstAccepted(input) == Failure(InputReadFailed)
  {
  }

  /** bufio.Reader.ReadString('\n'): the position of the newline ending the next line, if any. */
  method FindNewline(s: string) returns (r: Option<nat>)
    ensures r == NewlineIndex(s)
  {
    var end := 0;
    while end < |s| && s[end] != '\n'
      invariant end <= |s|
      invariant forall i :: 0 <= i < end ==> s[i] != '\n'
    {
      end := end + 1;
    }
    if end == |s| {
      return None;
    }
    NewlineIndexAt(s, end);
    return Some(end);
  }

  /** promptForKeyCount: prompt, read a line, check it, and prompt again until a count is accepted. */
  method PromptForKeyCount(input: string) returns (r: Result<int, ReadError>)
    ensures r == FirstAccepted(input)
    ensures r.Success? ==> 0 < r.value <= MaxInt
  {
    var rest := input;
    while true
      invariant FirstAccepted(rest) == FirstAccepted(input)
      decreases |rest|
    {
      var nl := FindNewline(rest);
      if nl.None? {
        return Failure(InputReadFailed);
      }
      var check := ValidateCount(rest[..nl.value + 1]);
      if check.Accept? {
        return Success(check.count);
      }
      rest := rest[nl.value + 1..];
    }
  }
}
