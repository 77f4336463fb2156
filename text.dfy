/** Character-level building blocks shared by both versions of the tool:
    ASCII digit runs, decimal numbers as the program parses (`str::parse::<usize>`)
    and prints them (`{}`), substring search (`str::find`) and line splitting
    (`str::split('\n')`). */
module Text {
  import opened Errors

  /** Largest value of a `usize` on a 64-bit target. */
  const USIZE_MAX: nat := 0xFFFF_FFFF_FFFF_FFFF

  predicate IsDigit(c: char) {
    '0' <= c <= '9'
  }

  predicate AllDigits(s: string) {
    forall i {:trigger IsDigit(s[i])} :: 0 <= i < |s| ==> IsDigit(s[i])
  }

  /** A non-empty run of ASCII digits: what one `(\d+)` group captures. */
  predicate DigitRun(s: string) {
    |s| > 0 && AllDigits(s)
  }

  /** A digit run holds no character other than a digit. */
  lemma DigitsAvoid(s: string, c: char)
    requires AllDigits(s) && !IsDigit(c)
    ensures c !in s
  {
    forall i | 0 <= i < |s| ensures s[i] != c {
      assert IsDigit(s[i]);
    }
  }

  /** `p` occurs in `s` starting at offset `i`. */
  predicate OccursAt(s: string, p: string, i: nat) {
    i + |p| <= |s| && s[i..i + |p|] == p
  }

  /** Text that follows `a` at the start of `s` occurs in `s` right after `a`. */
  lemma OccursAfterPrefix(a: string, p: string, s: string)
    requires a + p <= s
    ensures OccursAt(s, p, |a|)
  {
    assert s[|a|..|a| + |p|] == (a + p)[|a|..];
  }

  /** The length of the run of ASCII digits that opens `s`: how far a greedy `\d+` reaches. */
  function DigitsLen(s: string): (n: nat)
    ensures n <= |s|
    ensures AllDigits(s[..n])
    ensures n == |s| || !IsDigit(s[n])
  {
    if s != [] && IsDigit(s[0]) then 1 + DigitsLen(s[1..]) else 0
  }

  /** A digit run followed by text that does not open with a digit is read in full and no further. */
  lemma {:induction false} DigitsLenCat(ds: string, rest: string)
    requires AllDigits(ds)
    requires rest == [] || !IsDigit(rest[0])
    ensures DigitsLen(ds + rest) == |ds|
  {
    if ds != [] {
      assert (ds + rest)[1..] == ds[1..] + rest;
      assert IsDigit(ds[0]);
      DigitsLenCat(ds[1..], rest);
    }
  }

  /** Whatever follows a digit run, the run is read at least in full. */
  lemma {:induction false} DigitsLenAtLeast(ds: string, rest: string)
    requires AllDigits(ds)
    ensures DigitsLen(ds + rest) >= |ds|
  {
    if ds != [] {
      assert (ds + rest)[1..] == ds[1..] + rest;
      assert IsDigit(ds[0]);
      DigitsLenAtLeast(ds[1..], rest);
    }
  }

  /** The offset of the first newline in `s`, or `|s|`: how far `.*` can reach. */
  function LineEnd(s: string): (n: nat)
    ensures n <= |s|
    ensures '\n' !in s[..n]
    ensures n == |s| || s[n] == '\n'
  {
    if s == [] || s[0] == '\n' then 0 else 1 + LineEnd(s[1..])
  }

  /** Text without a newline lies wholly on the line it opens. */
  lemma {:induction false} LineEndCat(a: string, b: string)
    requires '\n' !in a
    ensures LineEnd(a + b) == |a| + LineEnd(b)
  {
    if a != [] {
      assert (a + b)[1..] == a[1..] + b;
      assert a[0] in a && (a + b)[0] == a[0];
      assert forall c :: c in a[1..] ==> c in a;
      LineEndCat(a[1..], b);
      assert LineEnd(a + b) == 1 + LineEnd(a[1..] + b);
    } else {
      assert a + b == b;
    }
  }

  function DigitValue(c: char): nat
    requires IsDigit(c)
  {
    c as int - '0' as int
  }

  function DigitChar(d: nat): char
    requires d < 10
  {
    ('0' as int + d) as char
  }

  /** The value of a string of decimal digits (leading zeros allowed). */
  function DecimalValue(ds: string): nat
    requires AllDigits(ds)
  {
    if ds == [] then 0 else 10 * DecimalValue(ds[..|ds| - 1]) + DigitValue(ds[|ds| - 1])
  }

  /** How `{}` prints a non-negative integer: its shortest decimal form. */
  function DecimalString(n: nat): (s: string)
    ensures DigitRun(s)
    ensures s[0] == '0' ==> n == 0
    ensures n < 10 ==> s == [DigitChar(n)]
  {
    if n < 10 then [DigitChar(n)] else DecimalString(n / 10) + [DigitChar(n % 10)]
  }

  /** Reading back a printed number gives the number. */
  lemma {:induction false} DecimalRoundTrip(n: nat)
    ensures DecimalValue(DecimalString(n)) == n
  {
    if n >= 10 {
      var s := DecimalString(n);
      assert s[..|s| - 1] == DecimalString(n / 10);
      DecimalRoundTrip(n / 10);
    }
  }

  /** `str::parse::<usize>` accepts a digit run exactly when its value fits 64 bits. */
  predicate FitsUsize(ds: string) {
    AllDigits(ds) && DecimalValue(ds) <= USIZE_MAX
  }

  /** `str::parse::<usize>` of a digit run: the value, or an error when it does not fit. */
  function ParseUsize(ds: string): (r: Result<nat>)
    requires AllDigits(ds)
    ensures r.Ok? <==> FitsUsize(ds)
    ensures r.Ok? ==> r.value == DecimalValue(ds) && r.value <= USIZE_MAX
    ensures r.Err? ==> r.error == TooLarge(ds)
  {
    var v := DecimalValue(ds);
    if v <= USIZE_MAX then Ok(v) else Err(TooLarge(ds))
  }

  /** A printed number reads back as itself exactly when it fits a usize. */
  lemma ParsePrinted(n: nat)
    ensures ParseUsize(DecimalString(n)) == if n <= USIZE_MAX then Ok(n) else Err(TooLarge(DecimalString(n)))
  {
    DecimalRoundTrip(n);
  }

  /** A run of zeros is worth 0. */
  lemma {:induction false} ZerosValue(z: string)
    requires forall i :: 0 <= i < |z| ==> z[i] == '0'
    ensures AllDigits(z) && DecimalValue(z) == 0
  {
    if z != [] {
      ZerosValue(z[..|z| - 1]);
    }
  }

  /** Leading zeros do not change a number's value: `007` reads as 7. */
  lemma {:induction false} LeadingZeros(z: string, ds: string)
    requires forall i :: 0 <= i < |z| ==> z[i] == '0'
    requires AllDigits(ds)
    ensures AllDigits(z + ds) && DecimalValue(z + ds) == DecimalValue(ds)
  {
    ZerosValue(z);
    if ds == [] {
      assert z + ds == z;
    } else {
      var init := ds[..|ds| - 1];
      assert (z + ds)[..|z + ds| - 1] == z + init;
      LeadingZeros(z, init);
    }
  }

  /** So `str::parse::<usize>` reads a zero-padded run as the run without its zeros. */
  lemma ParsePadded(z: string, ds: string)
    requires forall i :: 0 <= i < |z| ==> z[i] == '0'
    requires AllDigits(ds)
    ensures AllDigits(z + ds)
    ensures ParseUsize(z + ds).Ok? <==> ParseUsize(ds).Ok?
    ensures ParseUsize(z + ds).Ok? ==> ParseUsize(z + ds).value == ParseUsize(ds).value
  {
    LeadingZeros(z, ds);
  }

  /** The first offset at or after `i` where `p` occurs in `s`. */
  function FindFrom(s: string, p: string, i: nat): (r: Option<nat>)
    requires i <= |s|
    ensures r.Some? ==> i <= r.value && OccursAt(s, p, r.value)
    ensures r.Some? ==> forall k :: i <= k < r.value ==> !OccursAt(s, p, k)
    ensures r.None? ==> forall k: nat :: i <= k ==> !OccursAt(s, p, k)
    decreases |s| - i
  {
    if OccursAt(s, p, i) then Some(i) else if i == |s| then None else FindFrom(s, p, i + 1)
  }

  /** `str::find`: the first offset where `p` occurs in `s`, if any. */
  function Find(s: string, p: string): (r: Option<nat>)
    ensures r.Some? ==> OccursAt(s, p, r.value) && forall k: nat :: k < r.value ==> !OccursAt(s, p, k)
    ensures r.None? <==> forall k: nat :: !OccursAt(s, p, k)
  {
    FindFrom(s, p, 0)
  }

  /** `s.find(p)` is `Some(_)`. */
  predicate Contains(s: string, p: string) {
    Find(s, p).Some?
  }

  /** `s.split('\n')`: the pieces between newlines, always at least one. */
  function Split(s: string): (lines: seq<string>)
    ensures |lines| > 0
    ensures forall k :: 0 <= k < |lines| ==> '\n' !in lines[k]
    decreases |s|
  {
    if s == [] then [""]
    else
      var rest := Split(s[1..]);
      if s[0] == '\n' then [""] + rest else [[s[0]] + rest[0]] + rest[1..]
  }

  /** The inverse of `Split`: the pieces glued back with newlines. */
  function Join(lines: seq<string>): string
    requires |lines| > 0
  {
    if |lines| == 1 then lines[0] else lines[0] + "\n" + Join(lines[1..])
  }

  /** Splitting loses nothing. */
  lemma {:induction false} JoinSplit(s: string)
    ensures Join(Split(s)) == s
  {
    if s != [] {
      JoinSplit(s[1..]);
      var rest := Split(s[1..]);
      if s[0] != '\n' && |rest| > 1 {
        assert Join(rest) == rest[0] + "\n" + Join(rest[1..]);
      }
    }
  }

  /** Text up to the first newline splits off as the first piece. */
  lemma {:induction false} SplitFirstLine(a: string, b: string)
    requires '\n' !in a
    ensures Split(a + "\n" + b) == [a] + Split(b)
  {
    if a == [] {
      assert a + "\n" + b == "\n" + b;
      assert ("\n" + b)[1..] == b;
    } else {
      assert (a + "\n" + b)[1..] == a[1..] + "\n" + b;
      SplitFirstLine(a[1..], b);
      assert [a[0]] + a[1..] == a;
    }
  }

  /** Text without a newline is one piece. */
  lemma {:induction false} SplitNoNewline(a: string)
    requires '\n' !in a
    ensures Split(a) == [a]
  {
    if a != [] {
      SplitNoNewline(a[1..]);
      assert [a[0]] + a[1..] == a;
    }
  }

  /** Joining pieces that hold no newline and splitting again gives the pieces back. */
  lemma {:induction false} SplitJoin(lines: seq<string>)
    requires |lines| > 0
    requires forall k :: 0 <= k < |lines| ==> '\n' !in lines[k]
    ensures Split(Join(lines)) == lines
  {
    if |lines| == 1 {
      SplitNoNewline(lines[0]);
    } else {
      SplitJoin(lines[1..]);
      SplitFirstLine(lines[0], Join(lines[1..]));
    }
  }

  /** The lines a reader loop visits: those before the first empty line. */
  function UntilBlank(lines: seq<string>): (r: seq<string>)
    ensures |r| <= |lines| && r == lines[..|r|]
    ensures forall k :: 0 <= k < |r| ==> r[k] != ""
    ensures |r| < |lines| ==> lines[|r|] == ""
  {
    if lines == [] || lines[0] == "" then [] else [lines[0]] + UntilBlank(lines[1..])
  }

  /** A loop that stopped at line `i`, having seen no empty line before it, has read `UntilBlank`. */
  lemma UntilBlankAt(lines: seq<string>, i: nat)
    requires i <= |lines|
    requires forall k :: 0 <= k < i ==> lines[k] != ""
    requires i == |lines| || lines[i] == ""
    ensures UntilBlank(lines) == lines[..i]
  {
  }

  /** Whatever follows the first empty line is never read. */
  lemma {:induction false} UntilBlankIgnoresRest(a: seq<string>, b: seq<string>)
    requires "" in a
    ensures UntilBlank(a + b) == UntilBlank(a)
  {
    if a[0] != "" {
      assert (a + b)[1..] == a[1..] + b;
      UntilBlankIgnoresRest(a[1..], b);
    }
  }

  /** Every line parsed with `parse`, or the error of the first line that fails: what a
      loop over the lines does when it returns with `?` on a line it cannot parse. */
  function ParseAll<T>(lines: seq<string>, parse: string -> Result<T>): (r: Result<seq<T>>)
    ensures r.Ok? ==> |r.value| == |lines|
  {
    if lines == [] then Ok([])
    else
      var init := lines[..|lines| - 1];
      match ParseAll(init, parse)
      case Err(e) => Err(e)
      case Ok(recs) =>
        match parse(lines[|lines| - 1])
        case Err(e) => Err(e)
        case Ok(rec) => Ok(recs + [rec])
  }

  /** Parsing all lines succeeds with each line's value, in order, or fails with the error
      of the first line that fails. */
  lemma {:induction false} ParseAllSpec<T>(lines: seq<string>, parse: string -> Result<T>)
    ensures ParseAll(lines, parse).Ok? ==>
      forall i :: 0 <= i < |lines| ==> parse(lines[i]) == Ok(ParseAll(lines, parse).value[i])
    ensures ParseAll(lines, parse).Err? ==> exists i :: (0 <= i < |lines| &&
      parse(lines[i]) == Err(ParseAll(lines, parse).error) &&
      forall j :: 0 <= j < i ==> parse(lines[j]).Ok?)
  {
    if lines != [] {
      var init := lines[..|lines| - 1];
      ParseAllSpec(init, parse);
      assert forall i :: 0 <= i < |init| ==> init[i] == lines[i];
      if ParseAll(init, parse).Err? {
        var i :| 0 <= i < |init| && parse(init[i]) == Err(ParseAll(init, parse).error) &&
          forall j :: 0 <= j < i ==> parse(init[j]).Ok?;
        assert parse(lines[i]) == Err(ParseAll(lines, parse).error);
      }
    }
  }

  /** Lines after the first one that fails to parse are never parsed. */
  lemma {:induction false} ParseAllPrefixErr<T>(a: seq<string>, b: seq<string>, parse: string -> Result<T>)
    requires ParseAll(a, parse).Err?
    ensures ParseAll(a + b, parse) == ParseAll(a, parse)
    decreases |b|
  {
    if b != [] {
      var init := b[..|b| - 1];
      assert (a + b)[..|a + b| - 1] == a + init;
      ParseAllPrefixErr(a, init, parse);
    } else {
      assert a + b == a;
    }
  }

  /** Up to a non-empty line `i`, the lines read before the first empty one include line `i`. */
  lemma UntilBlankCovers(lines: seq<string>, i: nat)
    requires i < |lines| && forall k :: 0 <= k <= i ==> lines[k] != ""
    ensures |UntilBlank(lines)| > i
    ensures UntilBlank(lines) == lines[..i + 1] + UntilBlank(lines)[i + 1..]
  {
    var u := UntilBlank(lines);
    assert u[..i + 1] == lines[..i + 1];
  }

  /** One more line parsed: its value appended, or its error. */
  lemma ParseAllStep<T>(lines: seq<string>, i: nat, parse: string -> Result<T>)
    requires i < |lines| && ParseAll(lines[..i], parse).Ok?
    ensures ParseAll(lines[..i + 1], parse) ==
      match parse(lines[i])
      case Ok(v) => Ok(ParseAll(lines[..i], parse).value + [v])
      case Err(e) => Err(e)
  {
    assert lines[..i + 1][..i] == lines[..i];
  }

  /** A line that parses extends the values of the lines before it. */
  lemma ParseAllOkStep<T>(lines: seq<string>, i: nat, parse: string -> Result<T>, v: T)
    requires i < |lines| && ParseAll(lines[..i], parse).Ok? && parse(lines[i]) == Ok(v)
    ensures ParseAll(lines[..i + 1], parse) == Ok(ParseAll(lines[..i], parse).value + [v])
  {
    assert lines[..i + 1][..i] == lines[..i];
  }

  /** A line that fails to parse, before any empty line, is where reading the lines up to
      the first empty one fails. */
  lemma ParseAllStopsAt<T>(lines: seq<string>, i: nat, parse: string -> Result<T>)
    requires i < |lines| && forall k :: 0 <= k <= i ==> lines[k] != ""
    requires ParseAll(lines[..i], parse).Ok? && parse(lines[i]).Err?
    ensures ParseAll(UntilBlank(lines), parse) == Err(parse(lines[i]).error)
  {
    ParseAllStep(lines, i, parse);
    UntilBlankCovers(lines, i);
    ParseAllPrefixErr(lines[..i + 1], UntilBlank(lines)[i + 1..], parse);
  }
}
