/** The JSON report: every test result flattened into a plain record, and
    the records grouped into one file per encoder and one per decoder.
    Writing the files (and the timestamp they carry) is not modelled; what
    is modelled is what each file would hold and the name it would get. */
module JsonReport {
  import opened Common
  import opened Matrix

  /** One record of a JSON file. It has no field for the capacity flag. */
  datatype RawTestResult = RawTestResult(
    encoder: string,
    decoder: string,
    dataSize: int,
    pixelSize: int,
    contentType: string,
    success: bool,
    errorType: string,
    errorMsg: string,
    encodeTimeMs: real,
    decodeTimeMs: real,
    qrVersion: int,
    moduleCount: int,
    modulePixelSize: real,
    isFractionalModule: bool)

  /** A duration in nanoseconds as milliseconds, after truncation to whole
      microseconds (float64 rounding is not modelled). */
  function ToMilliseconds(d: nat): (ms: real)
    ensures ms >= 0.0
    ensures ms * 1000.0 == (d / 1000) as real
  {
    (d / 1000) as real / 1000.0
  }

  /** Durations that differ by less than a microsecond look the same, and
      longer whole-microsecond durations look longer. */
  lemma ToMillisecondsMonotone(a: nat, b: nat)
    requires a <= b
    ensures ToMilliseconds(a) <= ToMilliseconds(b)
    ensures a / 1000 < b / 1000 ==> ToMilliseconds(a) < ToMilliseconds(b)
  {
    var x, y := ToMilliseconds(a), ToMilliseconds(b);
    assert x * 1000.0 == (a / 1000) as real;
    assert y * 1000.0 == (b / 1000) as real;
  }

  /** The error kind as the "errorType" tag, set by three checks in turn;
      the tag names each known kind, tells the kinds apart, and stays
      empty for an unknown kind. */
  function ErrorTypeTag(e: TestError): (tag: string)
    ensures tag == "" <==> e.OtherErr?
    ensures tag == "encode" <==> e.EncodeErr?
    ensures tag == "decode" <==> e.DecodeErr?
    ensures tag == "dataMismatch" <==> e.Mismatch?
  {
    var tag0 := "";
    var tag1 := if e.EncodeErr? then "encode" else tag0;
    var tag2 := if e.DecodeErr? then "decode" else tag1;
    if e.Mismatch? then "dataMismatch" else tag2
  }

  /** convertResult; `errorText` gives the text of an error (its Error()
      method, whose format is not part of this model). The record says
      success exactly when there is no error; it has no message and no tag
      without an error, and the error's text and its kind's tag with one;
      all other fields are copied, the times in milliseconds. */
  function ConvertResult(r: TestResult, errorText: TestError -> string): (raw: RawTestResult)
    ensures raw.success <==> r.error.None?
    ensures r.error.None? ==> raw.errorMsg == "" && raw.errorType == ""
    ensures r.error.Some? ==> raw.errorMsg == errorText(r.error.value)
    ensures raw.errorType == "encode" <==> r.error.Some? && r.error.value.EncodeErr?
    ensures raw.errorType == "decode" <==> r.error.Some? && r.error.value.DecodeErr?
    ensures raw.errorType == "dataMismatch" <==> r.error.Some? && r.error.value.Mismatch?
    ensures raw.encoder == r.encoderName && raw.decoder == r.decoderName
    ensures raw.dataSize == r.dataSize && raw.pixelSize == r.pixelSize
    ensures raw.contentType == r.contentType
    ensures raw.qrVersion == r.qrVersion && raw.moduleCount == r.moduleCount
    ensures raw.modulePixelSize == r.modulePixelSize && raw.isFractionalModule == r.isFractionalModule
    ensures raw.encodeTimeMs * 1000.0 == (r.encodeTime / 1000) as real
    ensures raw.decodeTimeMs * 1000.0 == (r.decodeTime / 1000) as real
  {
    var raw := RawTestResult(r.encoderName, r.decoderName, r.dataSize, r.pixelSize, r.contentType,
                             r.error.None?, "", "",
                             ToMilliseconds(r.encodeTime), ToMilliseconds(r.decodeTime),
                             r.qrVersion, r.moduleCount, r.modulePixelSize, r.isFractionalModule);
    if r.error.Some? then
      raw.(errorMsg := errorText(r.error.value), errorType := ErrorTypeTag(r.error.value))
    else raw
  }

  // ---------------------------------------------------------------------
  // File names

  /** The file name an encoder or decoder name gets: each '/' becomes '_'. */
  function SlashFree(name: string): (r: string)
    ensures |r| == |name|
    ensures forall i :: 0 <= i < |r| ==> r[i] != '/'
    ensures forall i :: 0 <= i < |r| && name[i] != '/' ==> r[i] == name[i]
  {
    seq(|name|, i requires 0 <= i < |name| => if name[i] == '/' then '_' else name[i])
  }

  /** sanitizeFilename, character by character. */
  method SanitizeFilename(name: string) returns (result: string)
    ensures result == SlashFree(name)
  {
    result := "";
    for i := 0 to |name|
      invariant result == SlashFree(name[..i])
    {
      var c := name[i];
      if c == '/' {
        result := result + "_";
      } else {
        result := result + [c];
      }
    }
    assert name[..|name|] == name;
  }

  /** Names without '/' are kept; the result is already slash-free, so
      sanitizing twice changes nothing. */
  lemma SlashFreeIdempotent(name: string)
    ensures (forall i :: 0 <= i < |name| ==> name[i] != '/') ==> SlashFree(name) == name
    ensures SlashFree(SlashFree(name)) == SlashFree(name)
  {
  }

  /** Two different names can share a file: "a/b" and "a_b" do. */
  lemma SlashFreeCollides()
    ensures SlashFree("a/b") == SlashFree("a_b") && "a/b" != "a_b"
  {
    assert SlashFree("a/b") == "a_b";
    assert SlashFree("a_b") == "a_b";
  }

  // ---------------------------------------------------------------------
  // Grouping

  /** The results whose key is `k`. */
  function HasKey(key: TestResult -> string, k: string): TestResult -> bool {
    r => key(r) == k
  }

  function ConvertAll(rs: seq<TestResult>, errorText: TestError -> string): (raws: seq<RawTestResult>)
    ensures |raws| == |rs|
    ensures forall i :: 0 <= i < |rs| ==> raws[i] == ConvertResult(rs[i], errorText)
  {
    seq(|rs|, i requires 0 <= i < |rs| => ConvertResult(rs[i], errorText))
  }

  /** The map the grouping loop builds: each result, in turn, converted and
      appended to the list under its key. */
  function Groups(rs: seq<TestResult>, key: TestResult -> string, errorText: TestError -> string)
    : map<string, seq<RawTestResult>>
  {
    if rs == [] then map[]
    else
      var g := Groups(rs[..|rs| - 1], key, errorText);
      var x := rs[|rs| - 1];
      g[key(x) := (if key(x) in g then g[key(x)] else []) + [ConvertResult(x, errorText)]]
  }

  /** The keys of the grouping are exactly the keys of the results. */
  lemma {:induction false} GroupsKeys(rs: seq<TestResult>, key: TestResult -> string,
                                      errorText: TestError -> string, k: string)
    ensures k in Groups(rs, key, errorText) <==> exists i :: 0 <= i < |rs| && key(rs[i]) == k
  {
    if rs != [] {
      var init := rs[..|rs| - 1];
      GroupsKeys(init, key, errorText, k);
      if exists i :: 0 <= i < |rs| && key(rs[i]) == k {
        var i :| 0 <= i < |rs| && key(rs[i]) == k;
        if i < |init| {
          assert init[i] == rs[i];
        }
      }
      if exists i :: 0 <= i < |init| && key(init[i]) == k {
        var i :| 0 <= i < |init| && key(init[i]) == k;
        assert rs[i] == init[i];
      }
    }
  }

  /** The list under key `k` is the results with that key, converted, in
      their original order; together with `GroupsKeys` this puts each result
      in exactly one group. */
  lemma {:induction false} GroupsContents(rs: seq<TestResult>, key: TestResult -> string,
                                          errorText: TestError -> string, k: string)
    ensures k in Groups(rs, key, errorText) ==>
              Groups(rs, key, errorText)[k] == ConvertAll(Filter(rs, HasKey(key, k)), errorText)
    ensures k !in Groups(rs, key, errorText) ==> Filter(rs, HasKey(key, k)) == []
  {
    if rs != [] {
      var init := rs[..|rs| - 1];
      var x := rs[|rs| - 1];
      GroupsContents(init, key, errorText, k);
      var f := Filter(init, HasKey(key, k));
      assert Filter(rs, HasKey(key, k)) == f + (if HasKey(key, k)(x) then [x] else []);
      if key(x) == k {
        ConvertAllSnoc(f, x, errorText);
      }
    }
  }

  lemma ConvertAllSnoc(rs: seq<TestResult>, x: TestResult, errorText: TestError -> string)
    ensures ConvertAll(rs + [x], errorText) == ConvertAll(rs, errorText) + [ConvertResult(x, errorText)]
  {
    assert forall i :: 0 <= i < |rs| ==> (rs + [x])[i] == rs[i];
  }

  /** The grouping loop of generateEncoderFiles and generateDecoderFiles. */
  method GroupResults(rs: seq<TestResult>, key: TestResult -> string, errorText: TestError -> string)
    returns (groups: map<string, seq<RawTestResult>>)
    ensures groups == Groups(rs, key, errorText)
  {
    groups := map[];
    for i := 0 to |rs|
      invariant groups == Groups(rs[..i], key, errorText)
    {
      var result := rs[i];
      var raw := ConvertResult(result, errorText);
      var k := key(result);
      var sofar := if k in groups then groups[k] else [];
      groups := groups[k := sofar + [raw]];
      assert rs[..i + 1][..i] == rs[..i];
    }
    assert rs[..|rs|] == rs;
  }

  function EncoderKey(r: TestResult): string { r.encoderName }

  function DecoderKey(r: TestResult): string { r.decoderName }

  /** The contents of the per-encoder files, keyed by encoder name. */
  method EncoderFiles(m: CompatibilityMatrix, errorText: TestError -> string)
    returns (byEncoder: map<string, seq<RawTestResult>>)
    ensures byEncoder == Groups(m.results, EncoderKey, errorText)
  {
    byEncoder := GroupResults(m.results, EncoderKey, errorText);
  }

  /** The contents of the per-decoder files, keyed by decoder name. */
  method DecoderFiles(m: CompatibilityMatrix, errorText: TestError -> string)
    returns (byDecoder: map<string, seq<RawTestResult>>)
    ensures byDecoder == Groups(m.results, DecoderKey, errorText)
  {
    byDecoder := GroupResults(m.results, DecoderKey, errorText);
  }
}
