/** The benchmark's run configuration: its defaults, the ordered chain of
    checks that decides whether a configuration is usable, and the parsing
    of the comma-separated lists given on the command line. */
module Config {
  import opened Common
  import opened Decimal

  /** A Go `time.Duration` counts nanoseconds. */
  const Second: int := 1_000_000_000

  datatype Config = Config(
    dataSizes: seq<int>,
    pixelSizes: seq<int>,
    errorLevels: seq<string>,
    parallel: bool,
    timeout: int,
    maxWorkers: int,
    skipCGO: bool,
    skipArchived: bool,
    outputDir: string,
    outputFormats: seq<string>,
    timestamp: bool)

  /** The defaults; `numCPU` stands for runtime.NumCPU(). */
  function DefaultConfig(numCPU: int): (c: Config)
    ensures c.dataSizes == [500, 550, 600, 650, 750, 800]
    ensures c.pixelSizes == [320, 400, 440, 450, 460, 480, 512, 560]
    ensures c.errorLevels == ["L", "M", "Q", "H"] && c.outputFormats == ["markdown", "html"]
    ensures c.maxWorkers == numCPU && c.timeout == 10 * Second
  {
    Config(
      dataSizes := [500, 550, 600, 650, 750, 800],
      pixelSizes := [320, 400, 440, 450, 460, 480, 512, 560],
      errorLevels := ["L", "M", "Q", "H"],
      parallel := true,
      timeout := 10 * Second,
      maxWorkers := numCPU,
      skipCGO := false,
      skipArchived := false,
      outputDir := "./res" + "ults",
      outputFormats := ["markdown", "html"],
      timestamp := true)
  }

  /** The QR error-correction levels, by their upper-case letter only. */
  function IsValidErrorLevel(level: string): (ok: bool)
    ensures ok <==> |level| == 1 && level[0] in {'L', 'M', 'Q', 'H'}
  {
    level == "L" || level == "M" || level == "Q" || level == "H"
  }

  function IsValidOutputFormat(format: string): (ok: bool)
    ensures ok ==> 3 <= |format| <= 8 && format[0] in {'m', 'h', 'c'}
  {
    format == "markdown" || format == "html" || format == "csv"
  }

  /** The enumeration checks accept nothing else: in particular a level in
      lower case is refused. */
  lemma ErrorLevelCaseSensitive(level: string)
    requires |level| == 1 && 'a' <= level[0] <= 'z'
    ensures !IsValidErrorLevel(level)
  {
  }

  lemma OutputFormatExact(format: string)
    ensures IsValidOutputFormat(format) <==> format in ["markdown", "html", "csv"]
  {
  }

  /** Which check of Validate failed, with the offending value. */
  datatype ConfigError =
    | EmptyDataSizes
    | EmptyPixelSizes
    | EmptyErrorLevels
    | InvalidErrorLevel(level: string)
    | NonPositiveTimeout(timeout: int)
    | NonPositiveMaxWorkers(maxWorkers: int)
    | EmptyOutputFormats
    | InvalidOutputFormat(format: string)

  /** Everything Validate demands, stated all at once. */
  predicate ValidConfig(c: Config) {
    && |c.dataSizes| > 0
    && |c.pixelSizes| > 0
    && |c.errorLevels| > 0
    && (forall l :: l in c.errorLevels ==> IsValidErrorLevel(l))
    && c.timeout > 0
    && c.maxWorkers > 0
    && |c.outputFormats| > 0
    && (forall f :: f in c.outputFormats ==> IsValidOutputFormat(f))
  }

  /** The position of the first element that `ok` refuses. */
  function FirstRefused(s: seq<string>, ok: string -> bool): (r: Option<nat>)
    ensures r.None? <==> forall i :: 0 <= i < |s| ==> ok(s[i])
    ensures r.Some? ==> r.value < |s| && !ok(s[r.value])
                        && forall i :: 0 <= i < r.value ==> ok(s[i])
  {
    if s == [] then None
    else if !ok(s[0]) then Some(0)
    else match FirstRefused(s[1..], ok)
      case None => None
      case Some(i) => Some(i + 1)
  }

  /** Validate's eight checks in source order, each judged on its own. */
  function Checks(c: Config): (r: seq<Option<ConfigError>>)
    ensures |r| == 8
    ensures r[3] == LevelCheck(c) && r[7] == FormatCheck(c)
  {
    [ if |c.dataSizes| == 0 then Some(EmptyDataSizes) else None,
      if |c.pixelSizes| == 0 then Some(EmptyPixelSizes) else None,
      if |c.errorLevels| == 0 then Some(EmptyErrorLevels) else None,
      LevelCheck(c),
      if c.timeout <= 0 then Some(NonPositiveTimeout(c.timeout)) else None,
      if c.maxWorkers <= 0 then Some(NonPositiveMaxWorkers(c.maxWorkers)) else None,
      if |c.outputFormats| == 0 then Some(EmptyOutputFormats) else None,
      FormatCheck(c) ]
  }

  function LevelCheck(c: Config): Option<ConfigError> {
    match FirstRefused(c.errorLevels, IsValidErrorLevel)
    case Some(i) => Some(InvalidErrorLevel(c.errorLevels[i]))
    case None => None
  }

  function FormatCheck(c: Config): Option<ConfigError> {
    match FirstRefused(c.outputFormats, IsValidOutputFormat)
    case Some(i) => Some(InvalidOutputFormat(c.outputFormats[i]))
    case None => None
  }

  /** The first failure in a list of checks. */
  function FirstFailure(rs: seq<Option<ConfigError>>): Option<ConfigError>
  {
    if rs == [] then None
    else if rs[0].Some? then rs[0]
    else FirstFailure(rs[1..])
  }

  /** FirstFailure finds nothing only when every check passes, and what it
      finds is a failing check with only passing ones before it. */
  lemma {:induction false} FirstFailureMeaning(rs: seq<Option<ConfigError>>)
    ensures FirstFailure(rs).None? <==> forall k :: 0 <= k < |rs| ==> rs[k].None?
    ensures FirstFailure(rs).Some? ==>
      exists k :: 0 <= k < |rs| && rs[k] == FirstFailure(rs)
                  && forall j :: 0 <= j < k ==> rs[j].None?
  {
    if rs != [] {
      var r := FirstFailure(rs);
      if rs[0].Some? {
        assert rs[0] == r;
      } else {
        FirstFailureMeaning(rs[1..]);
        assert forall k :: 0 <= k < |rs[1..]| ==> rs[1..][k] == rs[k + 1];
        if r.Some? {
          var k :| 0 <= k < |rs[1..]| && rs[1..][k] == r && forall j :: 0 <= j < k ==> rs[1..][j].None?;
          assert rs[k + 1] == r;
          forall j | 0 <= j < k + 1 ensures rs[j].None? {
            if j > 0 { assert rs[j] == rs[1..][j - 1]; }
          }
        }
      }
    }
  }

  lemma {:induction false} FirstFailureAt(rs: seq<Option<ConfigError>>, k: nat)
    requires k < |rs| && rs[k].Some?
    requires forall j :: 0 <= j < k ==> rs[j].None?
    ensures FirstFailure(rs) == rs[k]
  {
    if k > 0 {
      FirstFailureAt(rs[1..], k - 1);
    }
  }

  /** The outcome of Validate: None for a usable configuration, otherwise
      the error of the check that stopped the chain. */
  function ValidationError(c: Config): Option<ConfigError>
  {
    if |c.dataSizes| == 0 then Some(EmptyDataSizes)
    else if |c.pixelSizes| == 0 then Some(EmptyPixelSizes)
    else if |c.errorLevels| == 0 then Some(EmptyErrorLevels)
    else if LevelCheck(c).Some? then LevelCheck(c)
    else if c.timeout <= 0 then Some(NonPositiveTimeout(c.timeout))
    else if c.maxWorkers <= 0 then Some(NonPositiveMaxWorkers(c.maxWorkers))
    else if |c.outputFormats| == 0 then Some(EmptyOutputFormats)
    else FormatCheck(c)
  }

  /** The chain stops at the first of the eight checks, in source order,
      that fails on its own. */
  lemma ValidationErrorIsFirstFailure(c: Config)
    ensures ValidationError(c) == FirstFailure(Checks(c))
  {
    var rs := Checks(c);
    if rs[0].Some? || rs[1].Some? || rs[2].Some? || rs[3].Some? {
      FirstFourChecks(c);
    } else {
      LastFourChecks(c);
    }
  }

  lemma FirstFourChecks(c: Config)
    requires Checks(c)[0].Some? || Checks(c)[1].Some? || Checks(c)[2].Some? || Checks(c)[3].Some?
    ensures ValidationError(c) == FirstFailure(Checks(c))
  {
    var rs := Checks(c);
    if rs[0].Some? { FirstFailureAt(rs, 0); }
    else if rs[1].Some? { FirstFailureAt(rs, 1); }
    else if rs[2].Some? { FirstFailureAt(rs, 2); }
    else { FirstFailureAt(rs, 3); }
  }

  lemma LastFourChecks(c: Config)
    requires Checks(c)[0].None? && Checks(c)[1].None? && Checks(c)[2].None? && Checks(c)[3].None?
    ensures ValidationError(c) == FirstFailure(Checks(c))
  {
    var rs := Checks(c);
    if rs[4].Some? { FirstFailureAt(rs, 4); }
    else if rs[5].Some? { FirstFailureAt(rs, 5); }
    else if rs[6].Some? { FirstFailureAt(rs, 6); }
    else if rs[7].Some? { FirstFailureAt(rs, 7); }
    else { FirstFailureMeaning(rs); }
  }

  /** Validate accepts exactly the configurations that meet every demand;
      when it refuses one, it names the first check, in source order, that
      fails. */
  lemma ValidationErrorMeaning(c: Config)
    ensures ValidationError(c).None? <==> ValidConfig(c)
    ensures ValidationError(c).Some? ==>
      exists k :: 0 <= k < 8 && Checks(c)[k] == ValidationError(c)
                  && forall j :: 0 <= j < k ==> Checks(c)[j].None?
  {
    ChecksPass(c);
    FirstFailureMeaning(Checks(c));
    ValidationErrorIsFirstFailure(c);
  }

  lemma ChecksPass(c: Config)
    ensures (forall k :: 0 <= k < 8 ==> Checks(c)[k].None?) <==> ValidConfig(c)
  {
    var rs := Checks(c);
    assert rs[3].None? <==> (forall l :: l in c.errorLevels ==> IsValidErrorLevel(l)) by {
      if rs[3].None? {
        forall l | l in c.errorLevels ensures IsValidErrorLevel(l) {
          var i :| 0 <= i < |c.errorLevels| && c.errorLevels[i] == l;
        }
      }
    }
    assert rs[7].None? <==> (forall f :: f in c.outputFormats ==> IsValidOutputFormat(f)) by {
      if rs[7].None? {
        forall f | f in c.outputFormats ensures IsValidOutputFormat(f) {
          var i :| 0 <= i < |c.outputFormats| && c.outputFormats[i] == f;
        }
      }
    }
    if forall k :: 0 <= k < 8 ==> rs[k].None? {
      assert rs[0].None? && rs[1].None? && rs[2].None? && rs[3].None?;
      assert rs[4].None? && rs[5].None? && rs[6].None? && rs[7].None?;
    }
  }

  /** The early-return chain of checks. */
  method Validate(c: Config) returns (err: Option<ConfigError>)
    ensures err == ValidationError(c)
  {
    if |c.dataSizes| == 0 {
      return Some(EmptyDataSizes);
    }
    if |c.pixelSizes| == 0 {
      return Some(EmptyPixelSizes);
    }
    if |c.errorLevels| == 0 {
      return Some(EmptyErrorLevels);
    }
    var bad := FindRefused(c.errorLevels, IsValidErrorLevel);
    if bad.Some? {
      return Some(InvalidErrorLevel(c.errorLevels[bad.value]));
    }
    if c.timeout <= 0 {
      return Some(NonPositiveTimeout(c.timeout));
    }
    if c.maxWorkers <= 0 {
      return Some(NonPositiveMaxWorkers(c.maxWorkers));
    }
    if |c.outputFormats| == 0 {
      return Some(EmptyOutputFormats);
    }
    bad := FindRefused(c.outputFormats, IsValidOutputFormat);
    if bad.Some? {
      return Some(InvalidOutputFormat(c.outputFormats[bad.value]));
    }
    return None;
  }

  /** The loop over a list that Validate runs for the levels and for the
      formats: stop at the first element `ok` refuses. */
  method FindRefused(s: seq<string>, ok: string -> bool) returns (r: Option<nat>)
    ensures r == FirstRefused(s, ok)
  {
    for i := 0 to |s|
      invariant forall j :: 0 <= j < i ==> ok(s[j])
    {
      if !ok(s[i]) {
        FirstRefusedAt(s, ok, i);
        return Some(i);
      }
    }
    return None;
  }

  lemma {:induction false} FirstRefusedAt(s: seq<string>, ok: string -> bool, i: nat)
    requires i < |s| && !ok(s[i])
    requires forall j :: 0 <= j < i ==> ok(s[j])
    ensures FirstRefused(s, ok) == Some(i)
  {
    if i > 0 {
      assert ok(s[0]);
      FirstRefusedAt(s[1..], ok, i - 1);
    }
  }

  /** With a positive CPU count the defaults pass every check. */
  lemma DefaultConfigValid(numCPU: int)
    requires numCPU > 0
    ensures ValidationError(DefaultConfig(numCPU)) == None
  {
    var c := DefaultConfig(numCPU);
    ValidationErrorMeaning(c);
    assert forall l :: l in c.errorLevels ==> IsValidErrorLevel(l);
    assert forall f :: f in c.outputFormats ==> IsValidOutputFormat(f);
  }

  // ---------------------------------------------------------------------
  // Comma-separated lists

  /** Go's strings.Split(s, string(sep)): the pieces between separators,
      one more than there are separators, so "" gives [""]. */
  function Split(s: string, sep: char): (parts: seq<string>)
    ensures |parts| >= 1
    ensures forall i :: 0 <= i < |parts| ==> sep !in parts[i]
  {
    if s == [] then [[]]
    else
      var rest := Split(s[1..], sep);
      if s[0] == sep then [[]] + rest
      else [[s[0]] + rest[0]] + rest[1..]
  }

  /** Go's strings.Join(parts, string(sep)). */
  function Join(parts: seq<string>, sep: char): (s: string)
    requires |parts| >= 1
  {
    if |parts| == 1 then parts[0] else parts[0] + [sep] + Join(parts[1..], sep)
  }

  /** Splitting loses nothing: the pieces joined back give the input. */
  lemma {:induction false} JoinSplit(s: string, sep: char)
    ensures Join(Split(s, sep), sep) == s
  {
    if s != [] {
      var rest := Split(s[1..], sep);
      JoinSplit(s[1..], sep);
      if s[0] == sep {
        assert Split(s, sep)[1..] == rest;
      } else {
        var parts := Split(s, sep);
        assert parts[1..] == rest[1..];
        if |rest| == 1 {
          assert Join(parts, sep) == [s[0]] + rest[0];
        } else {
          assert Join(rest, sep) == rest[0] + [sep] + Join(rest[1..], sep);
          assert Join(parts, sep) == ([s[0]] + rest[0]) + [sep] + Join(rest[1..], sep);
        }
        assert s == [s[0]] + s[1..];
      }
    }
  }

  /** And the other way round: pieces without separators come back from
      splitting their join. */
  lemma {:induction false} SplitJoin(parts: seq<string>, sep: char)
    requires |parts| >= 1
    requires forall i :: 0 <= i < |parts| ==> sep !in parts[i]
    ensures Split(Join(parts, sep), sep) == parts
  {
    if |parts| == 1 {
      SplitNoSep(parts[0], sep);
    } else {
      SplitJoin(parts[1..], sep);
      SplitPrefix(parts[0], Join(parts[1..], sep), sep);
      assert parts == [parts[0]] + parts[1..];
    }
  }

  lemma {:induction false} SplitNoSep(s: string, sep: char)
    requires sep !in s
    ensures Split(s, sep) == [s]
  {
    if s != [] {
      SplitNoSep(s[1..], sep);
      assert s == [s[0]] + s[1..];
    }
  }

  /** A piece without separators followed by a separator splits off as the
      first piece. */
  lemma {:induction false} SplitPrefix(a: string, b: string, sep: char)
    requires sep !in a
    ensures Split(a + [sep] + b, sep) == [a] + Split(b, sep)
  {
    if a == [] {
      assert a + [sep] + b == [sep] + b;
      assert ([sep] + b)[1..] == b;
    } else {
      var s := a + [sep] + b;
      assert s[1..] == a[1..] + [sep] + b;
      SplitPrefix(a[1..], b, sep);
      assert a == [a[0]] + a[1..];
    }
  }

  /** ASCII white space, as Go's strings.TrimSpace removes it. */
  predicate IsSpace(c: char) {
    c == ' ' || c == '\t' || c == '\n' || c == '\r' || c as int == 0x0B || c as int == 0x0C
  }

  predicate AllSpace(s: string) {
    forall i :: 0 <= i < |s| ==> IsSpace(s[i])
  }

  /** How many white-space characters `s` starts with. */
  function LeadingSpace(s: string): (n: nat)
    ensures n <= |s|
  {
    if s != [] && IsSpace(s[0]) then 1 + LeadingSpace(s[1..]) else 0
  }

  /** How many white-space characters `s` ends with. */
  function TrailingSpace(s: string): (n: nat)
    ensures n <= |s|
  {
    if s != [] && IsSpace(s[|s| - 1]) then 1 + TrailingSpace(s[..|s| - 1]) else 0
  }

  /** The leading run is all white space and is followed by a character
      that is not. */
  lemma {:induction false} LeadingSpaceMeaning(s: string)
    ensures var n := LeadingSpace(s);
      && (forall j :: 0 <= j < n ==> IsSpace(s[j]))
      && (n < |s| ==> !IsSpace(s[n]))
  {
    if s != [] && IsSpace(s[0]) {
      var tail := s[1..];
      LeadingSpaceMeaning(tail);
      forall j | 1 <= j < LeadingSpace(s) ensures IsSpace(s[j]) {
        assert s[j] == tail[j - 1];
      }
    }
  }

  /** The trailing run is all white space and is preceded by a character
      that is not. */
  lemma {:induction false} TrailingSpaceMeaning(s: string)
    ensures var n := TrailingSpace(s);
      && (forall j :: |s| - n <= j < |s| ==> IsSpace(s[j]))
      && (n < |s| ==> !IsSpace(s[|s| - n - 1]))
  {
    if s != [] && IsSpace(s[|s| - 1]) {
      var init := s[..|s| - 1];
      TrailingSpaceMeaning(init);
      forall j | |s| - TrailingSpace(s) <= j < |s| - 1 ensures IsSpace(s[j]) {
        assert s[j] == init[j];
      }
    }
  }

  /** Go's strings.TrimSpace on ASCII text: the white space on both ends
      cut off. */
  function TrimSpace(s: string): (r: string)
    ensures |r| <= |s|
  {
    var i := LeadingSpace(s);
    var t := s[i..];
    t[..|t| - TrailingSpace(t)]
  }

  /** What TrimSpace keeps is a contiguous part of `s`, and what it drops
      on either side is all white space. */
  lemma TrimSpaceInfix(s: string)
    ensures var r := TrimSpace(s); var i := LeadingSpace(s);
      && i + |r| <= |s| && r == s[i..i + |r|]
      && (forall j :: 0 <= j < i ==> IsSpace(s[j]))
      && (forall j :: i + |r| <= j < |s| ==> IsSpace(s[j]))
  {
    var i := LeadingSpace(s);
    var t := s[i..];
    var k := TrailingSpace(t);
    LeadingSpaceMeaning(s);
    TrailingSpaceMeaning(t);
    assert TrimSpace(s) == s[i..|s| - k];
    forall j | |s| - k <= j < |s| ensures IsSpace(s[j]) {
      assert s[j] == t[j - i];
    }
  }

  /** What TrimSpace keeps starts and ends with a character that is not
      white space, and it keeps nothing exactly when all is white space. */
  lemma TrimSpaceEnds(s: string)
    ensures var r := TrimSpace(s);
      && (r != [] ==> !IsSpace(r[0]) && !IsSpace(r[|r| - 1]))
      && (r == [] <==> AllSpace(s))
  {
    var i := LeadingSpace(s);
    var t := s[i..];
    LeadingSpaceMeaning(s);
    TrailingSpaceMeaning(t);
    if i < |s| {
      assert t[0] == s[i];
    }
  }

  /** Trimming twice changes nothing more. */
  lemma TrimSpaceIdempotent(s: string)
    ensures TrimSpace(TrimSpace(s)) == TrimSpace(s)
  {
    var r := TrimSpace(s);
    TrimSpaceEnds(s);
    if r != [] {
      assert LeadingSpace(r) == 0;
      assert r[0..] == r;
      assert TrailingSpace(r) == 0;
    }
  }

  /** The trimmed, non-empty pieces, in order: what both list parsers keep
      of the split input. */
  function Kept(parts: seq<string>): (r: seq<string>)
    ensures |r| <= |parts|
    ensures forall k :: 0 <= k < |r| ==> r[k] != []
  {
    if parts == [] then []
    else
      var t := TrimSpace(parts[|parts| - 1]);
      Kept(parts[..|parts| - 1]) + (if t != [] then [t] else [])
  }

  /** Kept is the trimmed pieces with the empty ones filtered out. */
  lemma {:induction false} KeptIsFilter(parts: seq<string>)
    ensures Kept(parts) == Filter(Trimmed(parts), NonEmpty)
  {
    if parts != [] {
      var init := parts[..|parts| - 1];
      KeptIsFilter(init);
      assert Trimmed(parts)[..|parts| - 1] == Trimmed(init);
    }
  }

  /** Every kept piece is already trimmed. */
  lemma {:induction false} KeptTrimmed(parts: seq<string>)
    ensures forall k :: 0 <= k < |Kept(parts)| ==> TrimSpace(Kept(parts)[k]) == Kept(parts)[k]
  {
    if parts != [] {
      var init := parts[..|parts| - 1];
      var last := parts[|parts| - 1];
      var t := TrimSpace(last);
      var ks := Kept(init);
      var r := Kept(parts);
      assert r == ks + (if t != [] then [t] else []);
      KeptTrimmed(init);
      TrimSpaceIdempotent(last);
      forall k | 0 <= k < |r| ensures TrimSpace(r[k]) == r[k] {
        if k < |ks| {
          assert r[k] == ks[k];
        } else {
          assert r[k] == t;
        }
      }
    }
  }

  function Trimmed(parts: seq<string>): (r: seq<string>)
    ensures |r| == |parts| && forall k :: 0 <= k < |r| ==> r[k] == TrimSpace(parts[k])
  {
    seq(|parts|, k requires 0 <= k < |parts| => TrimSpace(parts[k]))
  }

  predicate NonEmpty(s: string) { s != [] }

  /** parseStringSlice, as a function of the text. */
  function StringList(s: string): (r: seq<string>)
    ensures |r| <= |Split(s, ',')|
    ensures forall k :: 0 <= k < |r| ==> r[k] != []
  {
    Kept(Split(s, ','))
  }

  /** How one more piece changes what is kept. */
  lemma KeptStep(parts: seq<string>, i: nat)
    requires i < |parts|
    ensures Kept(parts[..i + 1]) == Kept(parts[..i]) + (if TrimSpace(parts[i]) != [] then [TrimSpace(parts[i])] else [])
  {
    assert parts[..i + 1][..i] == parts[..i];
  }

  method ParseStringSlice(s: string) returns (result: seq<string>)
    ensures result == StringList(s)
  {
    var parts := Split(s, ',');
    result := [];
    for i := 0 to |parts|
      invariant result == Kept(parts[..i])
    {
      var part := TrimSpace(parts[i]);
      KeptStep(parts, i);
      if part != [] {
        result := result + [part];
      }
    }
    assert parts[..|parts|] == parts;
  }

  /** strconv.Atoi applied to each string in turn; the first string that is
      not an integer is the error. */
  function AtoiAll(xs: seq<string>): (r: Result<seq<int>, string>)
    ensures r.Success? <==> forall k :: 0 <= k < |xs| ==> Atoi(xs[k]).Some?
    ensures r.Success? ==> |r.value| == |xs| && forall k :: 0 <= k < |xs| ==> Atoi(xs[k]) == Some(r.value[k])
  {
    if xs == [] then Success([])
    else
      var init := xs[..|xs| - 1];
      var x := xs[|xs| - 1];
      match AtoiAll(init)
      case Failure(e) => Failure(e)
      case Success(v) =>
        match Atoi(x)
        case None => Failure(x)
        case Some(n) => Success(v + [n])
  }

  /** The error AtoiAll reports is the first string that is not an
      integer. */
  lemma {:induction false} AtoiAllFailure(xs: seq<string>)
    requires AtoiAll(xs).Failure?
    ensures exists k :: 0 <= k < |xs| && xs[k] == AtoiAll(xs).error && Atoi(xs[k]).None?
                        && forall j :: 0 <= j < k ==> Atoi(xs[j]).Some?
  {
    var init := xs[..|xs| - 1];
    if AtoiAll(init).Failure? {
      AtoiAllFailure(init);
      var k :| 0 <= k < |init| && init[k] == AtoiAll(init).error && Atoi(init[k]).None?
               && forall j :: 0 <= j < k ==> Atoi(init[j]).Some?;
      assert xs[k] == init[k];
      assert forall j :: 0 <= j < k ==> xs[j] == init[j];
    } else {
      var k := |xs| - 1;
      assert forall j :: 0 <= j < k ==> xs[j] == init[j];
      assert xs[k] == AtoiAll(xs).error;
    }
  }

  /** parseIntSlice on the pieces of the split text, step by step as its
      loop goes: skip empty pieces, stop at the first that is not an
      integer. */
  function IntsOf(parts: seq<string>): (r: Result<seq<int>, string>)
  {
    if parts == [] then Success([])
    else match IntsOf(parts[..|parts| - 1])
      case Failure(e) => Failure(e)
      case Success(v) =>
        var t := TrimSpace(parts[|parts| - 1]);
        if t == [] then Success(v)
        else match Atoi(t)
          case None => Failure(t)
          case Some(n) => Success(v + [n])
  }

  /** parseIntSlice, as a function of the text. */
  function IntList(s: string): (r: Result<seq<int>, string>)
  {
    IntsOf(Split(s, ','))
  }

  /** parseIntSlice is parseStringSlice followed by Atoi on every kept
      piece. */
  lemma {:induction false} IntsOfIsAtoiKept(parts: seq<string>)
    ensures IntsOf(parts) == AtoiAll(Kept(parts))
  {
    if parts != [] {
      var init := parts[..|parts| - 1];
      IntsOfIsAtoiKept(init);
      var t := TrimSpace(parts[|parts| - 1]);
      var ks := Kept(init);
      if t == [] {
        assert Kept(parts) == ks;
      } else {
        var ks2 := ks + [t];
        assert Kept(parts) == ks2;
        assert ks2[..|ks2| - 1] == ks && ks2[|ks2| - 1] == t;
        match IntsOf(init)
        case Failure(e) =>
          assert AtoiAll(ks2) == Failure(e);
        case Success(v) =>
          assert AtoiAll(ks2) == (match Atoi(t) case None => Failure(t) case Some(n) => Success(v + [n]));
      }
    }
  }

  /** What parseIntSlice promises: it succeeds exactly when every kept
      piece is an integer, and then gives those integers in order; otherwise
      it reports the first kept piece that is not one. */
  lemma IntListMeaning(s: string)
    ensures var r := IntList(s); var kept := StringList(s);
      && (r.Success? <==> forall k :: 0 <= k < |kept| ==> Atoi(kept[k]).Some?)
      && (r.Success? ==> |r.value| == |kept| <= |Split(s, ',')|
                         && forall k :: 0 <= k < |kept| ==> Atoi(kept[k]) == Some(r.value[k]))
      && (r.Failure? ==> exists k :: 0 <= k < |kept| && kept[k] == r.error && Atoi(kept[k]).None?
                                     && forall j :: 0 <= j < k ==> Atoi(kept[j]).Some?)
  {
    IntsOfIsAtoiKept(Split(s, ','));
    if IntList(s).Failure? {
      AtoiAllFailure(StringList(s));
    }
  }

  /** How one more piece changes the parsed integers. */
  lemma IntsOfStep(parts: seq<string>, i: nat, vals: seq<int>)
    requires i < |parts| && IntsOf(parts[..i]) == Success(vals)
    ensures var t := TrimSpace(parts[i]);
            IntsOf(parts[..i + 1]) == if t == [] then Success(vals)
                                      else if Atoi(t).None? then Failure(t)
                                      else Success(vals + [Atoi(t).value])
  {
    assert parts[..i + 1][..i] == parts[..i];
  }

  /** A piece that is not an integer after integers decides the result. */
  lemma IntsOfFailure(parts: seq<string>, i: nat, vals: seq<int>)
    requires i < |parts| && IntsOf(parts[..i]) == Success(vals)
    requires TrimSpace(parts[i]) != [] && Atoi(TrimSpace(parts[i])).None?
    ensures IntsOf(parts) == Failure(TrimSpace(parts[i]))
  {
    IntsOfStep(parts, i, vals);
    IntsOfFailureSticks(parts, i + 1, TrimSpace(parts[i]));
  }

  method ParseIntSlice(s: string) returns (result: Result<seq<int>, string>)
    ensures result == IntList(s)
  {
    var parts := Split(s, ',');
    var vals: seq<int> := [];
    for i := 0 to |parts|
      invariant IntsOf(parts[..i]) == Success(vals)
    {
      var part := TrimSpace(parts[i]);
      IntsOfStep(parts, i, vals);
      if part == [] {
        continue;
      }
      var v := Atoi(part);
      if v.None? {
        IntsOfFailure(parts, i, vals);
        return Failure(part);
      }
      vals := vals + [v.value];
    }
    assert parts[..|parts|] == parts;
    return Success(vals);
  }

  /** Once a prefix of the pieces fails, the whole list fails the same
      way. */
  lemma {:induction false} IntsOfFailureSticks(parts: seq<string>, i: nat, e: string)
    requires i <= |parts| && IntsOf(parts[..i]) == Failure(e)
    ensures IntsOf(parts) == Failure(e)
    decreases |parts| - i
  {
    if i < |parts| {
      assert parts[..i + 1][..i] == parts[..i];
      IntsOfFailureSticks(parts, i + 1, e);
    } else {
      assert parts[..i] == parts;
    }
  }
}
