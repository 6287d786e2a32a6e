/**
  Reading a token's `expires_at` text: Python's `str.strip()` followed by
  `datetime.strptime(text, "%Y-%m-%d")`.

  `strptime` matches the format as a regular expression built from one
  pattern per directive (`%Y` is four digits, `%m` is `1[0-2]|0[1-9]|[1-9]`,
  `%d` is `3[01]|[12]\d|0[1-9]|[1-9]| [1-9]`), rejects the text when the
  match does not reach its end ("unconverted data remains"), and then
  rejects a year, month and day that `datetime.date` does not accept.
 */
module DateParse {

  import opened Wrappers
  import opened Calendar

  // ---------------------------------------------------------------------------
  // str.strip()

  /** The characters for which Python's `str.isspace()` holds. */
  predicate IsSpace(c: char) {
    var n := c as int;
    n == 0x20 || 0x09 <= n <= 0x0D || 0x1C <= n <= 0x1F || n == 0x85 || n == 0xA0
    || n == 0x1680 || 0x2000 <= n <= 0x200A || n == 0x2028 || n == 0x2029
    || n == 0x202F || n == 0x205F || n == 0x3000
  }

  predicate AllSpace(s: string) {
    forall i :: 0 <= i < |s| ==> IsSpace(s[i])
  }

  /** How many whitespace characters `s` starts with. */
  function LeadingSpaces(s: string): (n: nat)
    ensures n <= |s|
  {
    if |s| > 0 && IsSpace(s[0]) then 1 + LeadingSpaces(s[1..]) else 0
  }

  /** How many whitespace characters `s` ends with. */
  function TrailingSpaces(s: string): (n: nat)
    ensures n <= |s|
  {
    if |s| > 0 && IsSpace(s[|s| - 1]) then 1 + TrailingSpaces(s[..|s| - 1]) else 0
  }

  /** The leading run is all whitespace, and what follows it (if anything) is not. */
  lemma {:induction false} LeadingSpacesRun(s: string)
    ensures forall k :: 0 <= k < LeadingSpaces(s) ==> IsSpace(s[k])
    ensures LeadingSpaces(s) < |s| ==> !IsSpace(s[LeadingSpaces(s)])
    decreases |s|
  {
    if |s| > 0 && IsSpace(s[0]) {
      var tail := s[1..];
      LeadingSpacesRun(tail);
      forall k | 1 <= k < LeadingSpaces(s) ensures IsSpace(s[k]) {
        assert s[k] == tail[k - 1];
      }
      if LeadingSpaces(s) < |s| {
        assert s[LeadingSpaces(s)] == tail[LeadingSpaces(tail)];
      }
    }
  }

  /** The trailing run is all whitespace, and what precedes it (if anything) is not. */
  lemma {:induction false} TrailingSpacesRun(s: string)
    ensures forall k :: |s| - TrailingSpaces(s) <= k < |s| ==> IsSpace(s[k])
    ensures TrailingSpaces(s) < |s| ==> !IsSpace(s[|s| - TrailingSpaces(s) - 1])
    decreases |s|
  {
    if |s| > 0 && IsSpace(s[|s| - 1]) {
      var init := s[..|s| - 1];
      TrailingSpacesRun(init);
      forall k | |s| - TrailingSpaces(s) <= k < |s| - 1 ensures IsSpace(s[k]) {
        assert s[k] == init[k];
      }
    }
  }

  /**
    `s.strip()`: `s` without its leading whitespace, then without its
    trailing whitespace. What remains neither starts nor ends with whitespace.
   */
  function Strip(s: string): (r: string)
    ensures r == [] || (!IsSpace(r[0]) && !IsSpace(r[|r| - 1]))
  {
    var rest := s[LeadingSpaces(s)..];
    LeadingSpacesRun(s);
    TrailingSpacesRun(rest);
    rest[..|rest| - TrailingSpaces(rest)]
  }

  /** Any whitespace run followed by a non-space (or the end) is THE leading run. */
  lemma LeadingSpacesUnique(s: string, n: nat)
    requires n <= |s| && (forall k :: 0 <= k < n ==> IsSpace(s[k]))
    requires n < |s| ==> !IsSpace(s[n])
    ensures LeadingSpaces(s) == n
  {
    LeadingSpacesRun(s);
  }

  /** Any whitespace run preceded by a non-space (or the start) is THE trailing run. */
  lemma TrailingSpacesUnique(s: string, n: nat)
    requires n <= |s| && (forall k :: |s| - n <= k < |s| ==> IsSpace(s[k]))
    requires n < |s| ==> !IsSpace(s[|s| - n - 1])
    ensures TrailingSpaces(s) == n
  {
    TrailingSpacesRun(s);
  }

  /** What `strip` keeps is a slice of `s`, with only whitespace cut off either side. */
  lemma StripIsSlice(s: string)
    ensures exists i, j :: 0 <= i <= j <= |s| && Strip(s) == s[i..j] && AllSpace(s[..i]) && AllSpace(s[j..])
  {
    var i := LeadingSpaces(s);
    var rest := s[i..];
    var j := i + |rest| - TrailingSpaces(rest);
    LeadingSpacesRun(s);
    TrailingSpacesRun(rest);
    assert Strip(s) == s[i..j] && AllSpace(s[..i]) && AllSpace(s[j..]) by {
      assert rest[..j - i] == s[i..j];
      forall k | j <= k < |s| ensures IsSpace(s[k]) {
        assert s[k] == rest[k - i];
      }
    }
  }

  /** Whitespace put in front adds to the leading run of text that is not all whitespace. */
  lemma LeadingSpacesPadded(w1: string, s: string, w2: string)
    requires AllSpace(w1) && LeadingSpaces(s) < |s|
    ensures LeadingSpaces(w1 + s + w2) == |w1| + LeadingSpaces(s)
  {
    LeadingSpacesRun(s);
    var x := w1 + s + w2;
    var n := |w1| + LeadingSpaces(s);
    forall k | 0 <= k < n ensures IsSpace(x[k]) {
      if k < |w1| {
        assert x[k] == w1[k];
      } else {
        assert x[k] == s[k - |w1|];
      }
    }
    assert x[n] == s[LeadingSpaces(s)];
    LeadingSpacesUnique(x, n);
  }

  /** Text that is all whitespace stays so with whitespace around it. */
  lemma LeadingSpacesAllPadded(w1: string, s: string, w2: string)
    requires AllSpace(w1) && AllSpace(w2) && LeadingSpaces(s) == |s|
    ensures LeadingSpaces(w1 + s + w2) == |w1 + s + w2|
  {
    LeadingSpacesRun(s);
    var x := w1 + s + w2;
    forall k | 0 <= k < |x| ensures IsSpace(x[k]) {
      if k < |w1| {
        assert x[k] == w1[k];
      } else if k < |w1| + |s| {
        assert x[k] == s[k - |w1|];
      } else {
        assert x[k] == w2[k - |w1| - |s|];
      }
    }
    LeadingSpacesUnique(x, |x|);
  }

  /** Whitespace put behind adds to the trailing run of text that is not all whitespace. */
  lemma TrailingSpacesPadded(s: string, w2: string)
    requires AllSpace(w2) && |s| > 0 && !IsSpace(s[0])
    ensures TrailingSpaces(s + w2) == |w2| + TrailingSpaces(s)
  {
    TrailingSpacesRun(s);
    var y := s + w2;
    var t := TrailingSpaces(s);
    var m := |w2| + t;
    forall k | |y| - m <= k < |y| ensures IsSpace(y[k]) {
      if k < |s| {
        assert y[k] == s[k];
      } else {
        assert y[k] == w2[k - |s|];
      }
    }
    assert y[|y| - m - 1] == s[|s| - t - 1];
    TrailingSpacesUnique(y, m);
  }

  /** `strip` with the two whitespace runs already counted. */
  lemma StripAt(x: string, n: nat, y: string, m: nat)
    requires n <= |x| && LeadingSpaces(x) == n && x[n..] == y
    requires m <= |y| && TrailingSpaces(y) == m
    ensures Strip(x) == y[..|y| - m]
  {
  }

  lemma SuffixOfPadded(w1: string, s: string, w2: string, i: nat)
    requires i <= |s|
    ensures (w1 + s + w2)[|w1| + i..] == s[i..] + w2
  {
  }

  lemma PrefixOfConcat(a: string, b: string, k: nat)
    requires k <= |a|
    ensures (a + b)[..k] == a[..k]
  {
  }

  /** `(w1 + s + w2).strip() == s.strip()` whenever `w1` and `w2` are whitespace. */
  lemma StripIgnoresSurroundingSpace(w1: string, s: string, w2: string)
    requires AllSpace(w1) && AllSpace(w2)
    ensures Strip(w1 + s + w2) == Strip(s)
  {
    var i := LeadingSpaces(s);
    var x := w1 + s + w2;
    if i == |s| {
      LeadingSpacesAllPadded(w1, s, w2);
      StripAt(x, |x|, [], 0);
      StripAt(s, |s|, [], 0);
    } else {
      var rest := s[i..];
      LeadingSpacesRun(s);
      LeadingSpacesPadded(w1, s, w2);
      SuffixOfPadded(w1, s, w2, i);
      TrailingSpacesPadded(rest, w2);
      var t := TrailingSpaces(rest);
      StripAt(x, |w1| + i, rest + w2, |w2| + t);
      var y := rest + w2;
      assert Strip(x) == y[..|rest| - t];
      PrefixOfConcat(rest, w2, |rest| - t);
      StripAt(s, i, rest, t);
    }
  }

  // ---------------------------------------------------------------------------
  // strptime(text, "%Y-%m-%d")

  predicate IsDigit(c: char) {
    '0' <= c <= '9'
  }

  function DigitValue(c: char): (v: int)
    requires IsDigit(c)
    ensures 0 <= v <= 9
  {
    c as int - '0' as int
  }

  /** What one directive matched: the number read and how many characters it took. */
  datatype Field = Field(value: int, width: nat)

  /** `%Y`: exactly four digits. */
  function YearField(s: string): (f: Option<Field>)
    ensures f.Some? ==> f.value.width == 4 <= |s| && 0 <= f.value.value <= 9999
  {
    if |s| >= 4 && IsDigit(s[0]) && IsDigit(s[1]) && IsDigit(s[2]) && IsDigit(s[3]) then
      Some(Field(1000 * DigitValue(s[0]) + 100 * DigitValue(s[1])
                 + 10 * DigitValue(s[2]) + DigitValue(s[3]), 4))
    else None
  }

  /**
    `%m`: the first of `1[0-2]`, `0[1-9]`, `[1-9]` that matches. Only one of
    them can be followed by the `-` the format asks for next, so the regular
    expression's backtracking never picks another.
   */
  function MonthField(s: string): (f: Option<Field>)
    ensures f.Some? ==> 1 <= f.value.width <= |s| && f.value.width <= 2
    ensures f.Some? ==> 1 <= f.value.value <= 12
  {
    if |s| >= 2 && s[0] == '1' && '0' <= s[1] <= '2' then Some(Field(10 + DigitValue(s[1]), 2))
    else if |s| >= 2 && s[0] == '0' && '1' <= s[1] <= '9' then Some(Field(DigitValue(s[1]), 2))
    else if |s| >= 1 && '1' <= s[0] <= '9' then Some(Field(DigitValue(s[0]), 1))
    else None
  }

  /** `%d`: the first of `3[01]`, `[12]\d`, `0[1-9]`, `[1-9]`, ` [1-9]` that matches. */
  function DayField(s: string): (f: Option<Field>)
    ensures f.Some? ==> 1 <= f.value.width <= |s| && f.value.width <= 2
    ensures f.Some? ==> 1 <= f.value.value <= 31
  {
    if |s| >= 2 && s[0] == '3' && '0' <= s[1] <= '1' then Some(Field(30 + DigitValue(s[1]), 2))
    else if |s| >= 2 && '1' <= s[0] <= '2' && IsDigit(s[1]) then
      Some(Field(10 * DigitValue(s[0]) + DigitValue(s[1]), 2))
    else if |s| >= 2 && s[0] == '0' && '1' <= s[1] <= '9' then Some(Field(DigitValue(s[1]), 2))
    else if |s| >= 1 && '1' <= s[0] <= '9' then Some(Field(DigitValue(s[0]), 1))
    else if |s| >= 2 && s[0] == ' ' && '1' <= s[1] <= '9' then Some(Field(DigitValue(s[1]), 2))
    else None
  }

  /**
    `datetime.strptime(s, "%Y-%m-%d")`, with `None` standing for the
    `ValueError` it raises. Whatever it accepts is a real calendar date.
   */
  function ParseDate(s: string): (r: Option<Date>)
    ensures r.Some? ==> ValidDate(r.value)
    ensures r.Some? ==> 8 <= |s| <= 10 && s[4] == '-'
  {
    match YearField(s)
    case None => None
    case Some(year) =>
      if |s| == 4 || s[4] != '-' then None
      else
        var afterYear := s[5..];
        match MonthField(afterYear)
        case None => None
        case Some(month) =>
          if |afterYear| == month.width || afterYear[month.width] != '-' then None
          else
            var afterMonth := afterYear[month.width + 1..];
            match DayField(afterMonth)
            case None => None
            case Some(day) =>
              if day.width != |afterMonth| then None  // unconverted data remains
              else
                var d := Date(year.value, month.value, day.value);
                if ValidDate(d) then Some(d) else None
  }

  // ---------------------------------------------------------------------------
  // The text GitLab sends: ISO 8601, zero-padded.

  function DigitChar(n: int): (c: char)
    requires 0 <= n <= 9
    ensures IsDigit(c) && DigitValue(c) == n
  {
    ('0' as int + n) as char
  }

  /** `date.isoformat()`: the date as `YYYY-MM-DD`. */
  function Format(d: Date): (s: string)
    requires ValidDate(d)
    ensures |s| == 10 && IsDigit(s[0]) && IsDigit(s[9])
  {
    var y := d.year;
    var y10 := y / 10;
    var y100 := y10 / 10;
    [DigitChar(y100 / 10), DigitChar(y100 % 10), DigitChar(y10 % 10), DigitChar(y % 10), '-',
     DigitChar(d.month / 10), DigitChar(d.month % 10), '-',
     DigitChar(d.day / 10), DigitChar(d.day % 10)]
  }

  /** Every date, written the way the API writes it, parses back to itself. */
  lemma ParseFormat(d: Date)
    requires ValidDate(d)
    ensures ParseDate(Format(d)) == Some(d)
  {
    var s := Format(d);
    var y := d.year;
    var y10 := y / 10;
    var y100 := y10 / 10;
    assert y == 10 * y10 + y % 10 && y10 == 10 * y100 + y10 % 10 && y100 == 10 * (y100 / 10) + y100 % 10;
    assert YearField(s) == Some(Field(y, 4));
    assert s[5..][..2] == s[5..7];
    assert MonthField(s[5..]) == Some(Field(d.month, 2));
    assert s[5..][3..] == s[8..];
    assert DayField(s[8..]) == Some(Field(d.day, 2));
  }

  lemma DigitRoundTrip(c: char)
    requires IsDigit(c)
    ensures DigitChar(DigitValue(c)) == c
  {
  }

  /**
    Conversely, a ten-character text without a space-padded day is accepted
    only when it is the `YYYY-MM-DD` form of the date it is read as. With
    `ParseFormat`: such text is accepted exactly when it is the ISO form of
    a valid date, and then it is read as that date.
   */
  lemma FormatParse(s: string)
    requires |s| == 10 && s[8] != ' ' && ParseDate(s).Some?
    ensures Format(ParseDate(s).value) == s
  {
    var d := ParseDate(s).value;
    var year := YearField(s).value;
    var afterYear := s[5..];
    var month := MonthField(afterYear).value;
    assert month.width == 2;
    assert afterYear[2] == '-';
    var afterMonth := afterYear[3..];
    assert afterMonth == s[8..];
    var day := DayField(afterMonth).value;
    assert day.width == 2;
    assert d == Date(year.value, month.value, day.value);
    // the digits of the year, month and day are the ones Format writes
    var a, b, c, e := DigitValue(s[0]), DigitValue(s[1]), DigitValue(s[2]), DigitValue(s[3]);
    assert d.year == 1000 * a + 100 * b + 10 * c + e;
    DivModUnique(d.year, 10, 100 * a + 10 * b + c, e);
    DivModUnique(100 * a + 10 * b + c, 10, 10 * a + b, c);
    DivModUnique(10 * a + b, 10, a, b);
    DivModUnique(d.month, 10, DigitValue(s[5]), DigitValue(s[6]));
    DivModUnique(d.day, 10, DigitValue(s[8]), DigitValue(s[9]));
    DigitRoundTrip(s[0]);
    DigitRoundTrip(s[1]);
    DigitRoundTrip(s[2]);
    DigitRoundTrip(s[3]);
    DigitRoundTrip(s[5]);
    DigitRoundTrip(s[6]);
    DigitRoundTrip(s[8]);
    DigitRoundTrip(s[9]);
    var f := Format(d);
    assert forall i :: 0 <= i < 10 ==> f[i] == s[i];
  }

  /** Texts `strptime` accepts, including a one-digit month and day. */
  lemma ParseAccepts()
    ensures ParseDate("2024-01-10") == Some(Date(2024, 1, 10))
    ensures ParseDate("2024-02-29") == Some(Date(2024, 2, 29))
    ensures ParseDate("2024-1-5") == Some(Date(2024, 1, 5))
  {
    assert "2024-01-10"[5..] == "01-10";
    assert "01-10"[3..] == "10";
    assert "2024-02-29"[5..] == "02-29";
    assert "02-29"[3..] == "29";
    assert "2024-1-5"[5..] == "1-5";
    assert "1-5"[2..] == "5";
  }

  /** Texts `strptime` refuses: no such day, no such month, year 0, not a date. */
  lemma ParseRefuses()
    ensures ParseDate("2023-02-29") == None
    ensures ParseDate("2024-13-01") == None
    ensures ParseDate("0000-01-01") == None
    ensures ParseDate("not-a-date") == None
  {
    assert ParseDate("2023-02-29") == None by {
      assert YearField("2023-02-29") == Some(Field(2023, 4));
      assert "2023-02-29"[5..] == "02-29";
      assert MonthField("02-29") == Some(Field(2, 2));
      assert "02-29"[3..] == "29";
      assert DayField("29") == Some(Field(29, 2));
      assert !ValidDate(Date(2023, 2, 29));
    }
    assert ParseDate("2024-13-01") == None by {
      assert YearField("2024-13-01") == Some(Field(2024, 4));
      assert "2024-13-01"[5..] == "13-01";
      assert MonthField("13-01") == Some(Field(1, 1));
    }
    assert ParseDate("0000-01-01") == None by {
      assert YearField("0000-01-01") == Some(Field(0, 4));
      assert "0000-01-01"[5..] == "01-01";
      assert MonthField("01-01") == Some(Field(1, 2));
      assert "01-01"[3..] == "01";
      assert DayField("01") == Some(Field(1, 2));
    }
    assert YearField("not-a-date") == None;
  }
}
