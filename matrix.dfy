/** The test runner: it takes every test case through every encoder and
    every decoder, one triple after the other, and records for each triple
    whether encoding, decoding and the byte comparison succeeded. Encoders
    and decoders are foreign QR libraries; here each one is a name plus the
    functions it computes. */
module Matrix {
  import opened Common
  import opened Geometry
  import opened Corpus

  /** Encoding parameters handed to an encoder. */
  datatype EncodeOptions = EncodeOptions(errorCorrectionLevel: string, pixelSize: int)

  /** An encoder library: its name, what it produces for a payload (an
      image, or the text of its error) and how it classifies its errors. */
  datatype Encoder = Encoder(
    name: string,
    encode: (seq<byte>, EncodeOptions) -> Result<Image, string>,
    isCapacityError: string -> bool)

  /** A decoder library: its name and what it reads from an image. */
  datatype Decoder = Decoder(
    name: string,
    decode: Image -> Result<seq<byte>, string>)

  /** The error kinds a test result can carry. `OtherErr` stands for an
      error of any other type, which the runner never produces but the
      reports must still handle. */
  datatype TestError =
    | EncodeErr(cause: string)
    | DecodeErr(cause: string)
    | Mismatch(expected: int, got: int)
    | OtherErr(text: string)

  /** The outcome of one encode, decode and compare cycle. Durations are
      nanoseconds; `error` is None where Go has a nil error. */
  datatype TestResult = TestResult(
    encoderName: string,
    decoderName: string,
    dataSize: int,
    pixelSize: int,
    contentType: string,
    qrVersion: int,
    moduleCount: int,
    modulePixelSize: real,
    isFractionalModule: bool,
    encodeTime: nat,
    decodeTime: nat,
    success: bool,
    error: Option<TestError>,
    dataMatches: bool,
    isCapacityExceeded: bool)

  datatype CompatibilityMatrix = CompatibilityMatrix(
    results: seq<TestResult>,
    encoders: seq<string>,
    decoders: seq<string>,
    dataSizes: seq<int>,
    pixelSizes: seq<int>)

  datatype RunError = NoEncoders | NoDecoders | NoTestCases

  /** The level every test is encoded with. */
  const ErrorCorrectionM: string := "M"

  /** The display name of a content type in results. */
  function ContentTypeToString(ct: ContentType): (r: string)
    ensures ContentNumeric <= ct <= ContentUTF8 ==> r == ContentLabel(ct)
    ensures !(ContentNumeric <= ct <= ContentUTF8) ==> r == "unknown"
  {
    if ct == ContentNumeric then "numeric"
    else if ct == ContentAlphanumeric then "alphanumeric"
    else if ct == ContentBinary then "binary"
    else if ct == ContentUTF8 then "utf8"
    else "unknown"
  }

  /** The four known names are told apart, and none of them is "unknown". */
  lemma ContentTypeToStringInjective(a: ContentType, b: ContentType)
    requires ContentNumeric <= a <= ContentUTF8
    requires ContentTypeToString(a) == ContentTypeToString(b)
    ensures a == b
  {
    if ContentNumeric <= b <= ContentUTF8 {
      ContentLabelInjective(a, b);
    }
  }

  /** What one cycle records, given the durations the clock measured for
      the encode and the decode step. */
  function Outcome(tc: TestCase, enc: Encoder, dec: Decoder, encodeTime: nat, decodeTime: nat): TestResult
  {
    var base := TestResult(enc.name, dec.name, tc.dataSize, tc.pixelSize,
                           ContentTypeToString(tc.contentType), -1, 0, 0.0, false,
                           encodeTime, 0, false, None, false, false);
    match enc.encode(tc.data, EncodeOptions(ErrorCorrectionM, tc.pixelSize))
    case Failure(e) => base.(error := Some(EncodeErr(e)), isCapacityExceeded := enc.isCapacityError(e))
    case Success(img) =>
      var probe := DetectQRVersion(img);
      var probed := ProbeModules(base, probe.0, probe.1, tc.pixelSize);
      var timed := probed.(decodeTime := decodeTime);
      match dec.decode(img)
      case Failure(e) => timed.(error := Some(DecodeErr(e)))
      case Success(got) =>
        if tc.data != got then timed.(error := Some(Mismatch(|tc.data|, |got|)))
        else timed.(error := None)
  }

  /** The module fields after the version probe: filled in (version,
      module count, module width and whether it is fractional, for the
      standard quiet zone) only when the probe reports a positive version
      without an error; otherwise left as they were. */
  function ProbeModules(r: TestResult, version: int, err: Option<string>, pixelSize: int): (r': TestResult)
    ensures err.Some? || version <= 0 ==> r' == r
    ensures err.None? && version > 0 ==>
      && r' == r.(qrVersion := r'.qrVersion, moduleCount := r'.moduleCount,
                  modulePixelSize := r'.modulePixelSize, isFractionalModule := r'.isFractionalModule)
      && r'.qrVersion == version
      && r'.moduleCount == CalculateModuleCount(version)
      && r'.modulePixelSize == CalculateModulePixelSize(pixelSize, r'.moduleCount, QuietZoneModules)
      && (r'.isFractionalModule <==> IsFractionalModuleSize(r'.modulePixelSize))
  {
    if err.None? && version > 0 then
      var count := CalculateModuleCount(version);
      var width := CalculateModulePixelSize(pixelSize, count, QuietZoneModules);
      r.(qrVersion := version, moduleCount := count, modulePixelSize := width,
         isFractionalModule := IsFractionalModuleSize(width))
    else r
  }

  /** runTest: build the result field by field, returning early on an
      encode or a decode error. */
  method RunTest(tc: TestCase, enc: Encoder, dec: Decoder, encodeTime: nat, decodeTime: nat)
    returns (result: TestResult)
    ensures result == Outcome(tc, enc, dec, encodeTime, decodeTime)
  {
    result := TestResult(enc.name, dec.name, tc.dataSize, tc.pixelSize,
                         ContentTypeToString(tc.contentType), -1, 0, 0.0, false,
                         0, 0, false, None, false, false);
    var opts := EncodeOptions(ErrorCorrectionM, tc.pixelSize);
    var encoded := enc.encode(tc.data, opts);
    result := result.(encodeTime := encodeTime);
    if encoded.Failure? {
      result := result.(error := Some(EncodeErr(encoded.error)));
      result := result.(isCapacityExceeded := enc.isCapacityError(encoded.error));
      return;
    }
    var img := encoded.value;
    var (version, err) := DetectQRVersion(img);
    if err.None? && version > 0 {
      result := result.(qrVersion := version);
      result := result.(moduleCount := CalculateModuleCount(version));
      var modulePixelSize := CalculateModulePixelSize(tc.pixelSize, result.moduleCount, QuietZoneModules);
      result := result.(modulePixelSize := modulePixelSize);
      result := result.(isFractionalModule := IsFractionalModuleSize(modulePixelSize));
    }
    var decoded := dec.decode(img);
    result := result.(decodeTime := decodeTime);
    if decoded.Failure? {
      result := result.(error := Some(DecodeErr(decoded.error)));
      return;
    }
    if tc.data != decoded.value {
      result := result.(error := Some(Mismatch(|tc.data|, |decoded.value|)));
    } else {
      result := result.(error := None);
    }
  }

  /** The fields every cycle fills the same way: the names, the sizes and
      content type of the case, the encode time, a version left at -1 with
      no module information (the probe is not implemented), and Success and
      DataMatches, which the runner never sets. */
  lemma OutcomeFields(tc: TestCase, enc: Encoder, dec: Decoder, encodeTime: nat, decodeTime: nat)
    ensures var r := Outcome(tc, enc, dec, encodeTime, decodeTime);
      && r.encoderName == enc.name && r.decoderName == dec.name
      && r.dataSize == tc.dataSize && r.pixelSize == tc.pixelSize
      && r.contentType == ContentTypeToString(tc.contentType)
      && r.qrVersion == -1 && r.moduleCount == 0
      && r.modulePixelSize == 0.0 && !r.isFractionalModule
      && r.encodeTime == encodeTime
      && !r.success && !r.dataMatches
  {
  }

  /** How a cycle is classified: an encode error (flagged as a capacity
      error when the encoder says so) with no decode time; otherwise a
      decode error; otherwise a mismatch carrying both lengths; otherwise
      no error, exactly when the decoder gave back the original bytes. */
  lemma OutcomeClassification(tc: TestCase, enc: Encoder, dec: Decoder, encodeTime: nat, decodeTime: nat)
    ensures var r := Outcome(tc, enc, dec, encodeTime, decodeTime);
            var e := enc.encode(tc.data, EncodeOptions("M", tc.pixelSize));
      && (e.Failure? ==> r.error == Some(EncodeErr(e.error))
                         && r.isCapacityExceeded == enc.isCapacityError(e.error)
                         && r.decodeTime == 0)
      && (e.Success? ==> !r.isCapacityExceeded && r.decodeTime == decodeTime)
      && (e.Success? && dec.decode(e.value).Failure? ==>
            r.error == Some(DecodeErr(dec.decode(e.value).error)))
      && (e.Success? && dec.decode(e.value).Success? && dec.decode(e.value).value != tc.data ==>
            r.error == Some(Mismatch(|tc.data|, |dec.decode(e.value).value|)))
      && (r.error.None? <==> e.Success? && dec.decode(e.value) == Success(tc.data))
  {
  }

  /** When encoding fails the decoder is never consulted: any two decoders
      give the same result, apart from the decoder name recorded. */
  lemma EncodeFailureSkipsDecoder(tc: TestCase, enc: Encoder, dec1: Decoder, dec2: Decoder,
                                  encodeTime: nat, decodeTime1: nat, decodeTime2: nat)
    requires enc.encode(tc.data, EncodeOptions("M", tc.pixelSize)).Failure?
    ensures Outcome(tc, enc, dec1, encodeTime, decodeTime1).(decoderName := dec2.name)
         == Outcome(tc, enc, dec2, encodeTime, decodeTime2)
  {
  }

  /** The encoder is only ever asked for the case's data at level "M" and
      the case's pixel size: encoders that agree there give equal results. */
  lemma EncodesAtLevelM(tc: TestCase, enc1: Encoder, enc2: Encoder, dec: Decoder,
                        encodeTime: nat, decodeTime: nat)
    requires enc1.name == enc2.name && enc1.isCapacityError == enc2.isCapacityError
    requires enc1.encode(tc.data, EncodeOptions("M", tc.pixelSize))
          == enc2.encode(tc.data, EncodeOptions("M", tc.pixelSize))
    ensures Outcome(tc, enc1, dec, encodeTime, decodeTime) == Outcome(tc, enc2, dec, encodeTime, decodeTime)
  {
  }

  // ---------------------------------------------------------------------
  // The whole matrix

  /** Result `k` of a run, where the nesting is test case, then encoder,
      then decoder (the innermost); `clock(k)` gives the encode and decode
      durations measured for the k-th test. None past the end. */
  function RunCell(cases: seq<TestCase>, encs: seq<Encoder>, decs: seq<Decoder>,
                   clock: nat -> (nat, nat), k: nat): Option<TestResult>
  {
    if |encs| == 0 || |decs| == 0 then None
    else
      var u := Unflatten4(k, |encs|, |decs|, 1);
      if u.0 < |cases| then Some(Outcome(cases[u.0], encs[u.1], decs[u.2], clock(k).0, clock(k).1))
      else None
  }

  /** `results` holds the first |results| results of the run, in order. */
  predicate RunPrefix(results: seq<TestResult>, cases: seq<TestCase>, encs: seq<Encoder>,
                      decs: seq<Decoder>, clock: nat -> (nat, nat))
  {
    forall k :: 0 <= k < |results| ==> RunCell(cases, encs, decs, clock, k) == Some(results[k])
  }

  lemma RunPrefixAppend(results: seq<TestResult>, cases: seq<TestCase>, encs: seq<Encoder>,
                        decs: seq<Decoder>, clock: nat -> (nat, nat), t: nat, e: nat, d: nat)
    requires RunPrefix(results, cases, encs, decs, clock)
    requires t < |cases| && e < |encs| && d < |decs|
    requires |results| == t * (|encs| * |decs| * 1) + e * (|decs| * 1) + d * 1 + 0
    ensures RunPrefix(results + [Outcome(cases[t], encs[e], decs[d], clock(|results|).0, clock(|results|).1)],
                      cases, encs, decs, clock)
  {
    Flat4Index(t, e, d, 0, |cases|, |encs|, |decs|, 1, |results|);
    var next := results + [Outcome(cases[t], encs[e], decs[d], clock(|results|).0, clock(|results|).1)];
    forall k | 0 <= k < |next|
      ensures RunCell(cases, encs, decs, clock, k) == Some(next[k])
    {
      if k < |results| {
        assert next[k] == results[k];
      }
    }
  }

  /** The innermost loop: one test per decoder for case `t` and encoder
      `e`. */
  method RunDecoders(results0: seq<TestResult>, cases: seq<TestCase>, encs: seq<Encoder>,
                     decs: seq<Decoder>, clock: nat -> (nat, nat), t: nat, e: nat)
    returns (results: seq<TestResult>)
    requires t < |cases| && e < |encs|
    requires RunPrefix(results0, cases, encs, decs, clock)
    requires |results0| == t * (|encs| * |decs| * 1) + e * (|decs| * 1)
    ensures |results| == |results0| + |decs|
    ensures RunPrefix(results, cases, encs, decs, clock)
  {
    results := results0;
    for d := 0 to |decs|
      invariant |results| == |results0| + d
      invariant RunPrefix(results, cases, encs, decs, clock)
    {
      var timing := clock(|results|);
      var result := RunTest(cases[t], encs[e], decs[d], timing.0, timing.1);
      RunPrefixAppend(results, cases, encs, decs, clock, t, e, d);
      results := results + [result];
    }
  }

  /** The values a field takes over the test cases. */
  ghost function DataSizesOf(cases: seq<TestCase>): set<int> {
    set i | 0 <= i < |cases| :: cases[i].dataSize
  }

  ghost function PixelSizesOf(cases: seq<TestCase>): set<int> {
    set i | 0 <= i < |cases| :: cases[i].pixelSize
  }

  /** RunAll: refuse an empty axis, checking encoders, decoders and test
      cases in that order; otherwise run every (case, encoder, decoder)
      triple in nesting order and gather the names and the distinct sizes
      for the matrix. */
  method RunAll(encs: seq<Encoder>, decs: seq<Decoder>, cases: seq<TestCase>, clock: nat -> (nat, nat))
    returns (r: Result<CompatibilityMatrix, RunError>)
    ensures |encs| == 0 ==> r == Failure(NoEncoders)
    ensures |encs| > 0 && |decs| == 0 ==> r == Failure(NoDecoders)
    ensures |encs| > 0 && |decs| > 0 && |cases| == 0 ==> r == Failure(NoTestCases)
    ensures r.Success? <==> |encs| > 0 && |decs| > 0 && |cases| > 0
    ensures r.Success? ==>
      && |r.value.results| == |cases| * |encs| * |decs|
      && RunPrefix(r.value.results, cases, encs, decs, clock)
      && |r.value.encoders| == |encs| && (forall i :: 0 <= i < |encs| ==> r.value.encoders[i] == encs[i].name)
      && |r.value.decoders| == |decs| && (forall i :: 0 <= i < |decs| ==> r.value.decoders[i] == decs[i].name)
      && NoDuplicates(r.value.dataSizes) && (forall x :: x in r.value.dataSizes <==> x in DataSizesOf(cases))
      && NoDuplicates(r.value.pixelSizes) && (forall x :: x in r.value.pixelSizes <==> x in PixelSizesOf(cases))
  {
    if |encs| == 0 {
      return Failure(NoEncoders);
    }
    if |decs| == 0 {
      return Failure(NoDecoders);
    }
    if |cases| == 0 {
      return Failure(NoTestCases);
    }
    var encoderNames := seq(|encs|, i requires 0 <= i < |encs| => encs[i].name);
    var decoderNames := seq(|decs|, i requires 0 <= i < |decs| => decs[i].name);
    var results, dataSizeSet, pixelSizeSet := RunCases(cases, encs, decs, clock);
    var dataSizes := MapKeys(dataSizeSet);
    var pixelSizes := MapKeys(pixelSizeSet);
    return Success(CompatibilityMatrix(results, encoderNames, decoderNames, dataSizes, pixelSizes));
  }

  /** The two outer loops of RunAll, which also note each case's sizes. */
  method RunCases(cases: seq<TestCase>, encs: seq<Encoder>, decs: seq<Decoder>, clock: nat -> (nat, nat))
    returns (results: seq<TestResult>, dataSizeSet: set<int>, pixelSizeSet: set<int>)
    ensures |results| == |cases| * |encs| * |decs|
    ensures RunPrefix(results, cases, encs, decs, clock)
    ensures dataSizeSet == DataSizesOf(cases) && pixelSizeSet == PixelSizesOf(cases)
  {
    ghost var s2 := |decs| * 1;
    ghost var s1 := |encs| * |decs| * 1;
    results := [];
    dataSizeSet, pixelSizeSet := {}, {};
    for t := 0 to |cases|
      invariant |results| == t * s1
      invariant RunPrefix(results, cases, encs, decs, clock)
      invariant dataSizeSet == DataSizesOf(cases[..t]) && pixelSizeSet == PixelSizesOf(cases[..t])
    {
      var testCase := cases[t];
      dataSizeSet := dataSizeSet + {testCase.dataSize};
      pixelSizeSet := pixelSizeSet + {testCase.pixelSize};
      for e := 0 to |encs|
        invariant |results| == t * s1 + e * s2
        invariant RunPrefix(results, cases, encs, decs, clock)
      {
        results := RunDecoders(results, cases, encs, decs, clock, t, e);
        MulSucc(e, s2);
      }
      MulSucc(t, s1);
      SizesOfSnoc(cases, t);
    }
    assert cases[..|cases|] == cases;
  }

  lemma SizesOfSnoc(cases: seq<TestCase>, t: nat)
    requires t < |cases|
    ensures DataSizesOf(cases[..t + 1]) == DataSizesOf(cases[..t]) + {cases[t].dataSize}
    ensures PixelSizesOf(cases[..t + 1]) == PixelSizesOf(cases[..t]) + {cases[t].pixelSize}
  {
    var a, b := cases[..t + 1], cases[..t];
    assert forall i :: 0 <= i < t ==> a[i] == b[i];
    assert a[t] == cases[t];
  }

  /** The result of case `t`, encoder `e` and decoder `d` sits at position
      (t * E + e) * D + d, for E encoders and D decoders, and is what that
      triple's cycle recorded. */
  lemma RunAllIndex(results: seq<TestResult>, cases: seq<TestCase>, encs: seq<Encoder>,
                    decs: seq<Decoder>, clock: nat -> (nat, nat), t: nat, e: nat, d: nat)
    requires RunPrefix(results, cases, encs, decs, clock)
    requires |results| == |cases| * |encs| * |decs|
    requires t < |cases| && e < |encs| && d < |decs|
    ensures var k := (t * |encs| + e) * |decs| + d;
      k < |results| &&
      results[k] == Outcome(cases[t], encs[e], decs[d], clock(k).0, clock(k).1)
  {
    var k := (t * |encs| + e) * |decs| + d;
    Flat4Expand(t, e, d, 0, |encs|, |decs|, 1);
    assert ((t * |encs| + e) * |decs| + d) * 1 + 0 == k;
    Flat4Index(t, e, d, 0, |cases|, |encs|, |decs|, 1, k);
    assert |cases| * |encs| * |decs| * 1 == |results|;
    assert RunCell(cases, encs, decs, clock, k) == Some(results[k]);
  }

  /** Every result of a run names a known encoder and decoder and has the
      sizes of some test case. */
  lemma RunResultsFromAxes(results: seq<TestResult>, cases: seq<TestCase>, encs: seq<Encoder>,
                           decs: seq<Decoder>, clock: nat -> (nat, nat), k: nat)
    requires RunPrefix(results, cases, encs, decs, clock) && k < |results|
    ensures exists t, e, d ::
              && 0 <= t < |cases| && 0 <= e < |encs| && 0 <= d < |decs|
              && results[k].encoderName == encs[e].name && results[k].decoderName == decs[d].name
              && results[k].dataSize == cases[t].dataSize && results[k].pixelSize == cases[t].pixelSize
  {
    assert RunCell(cases, encs, decs, clock, k) == Some(results[k]);
    var u := Unflatten4(k, |encs|, |decs|, 1);
    OutcomeFields(cases[u.0], encs[u.1], decs[u.2], clock(k).0, clock(k).1);
  }
}
