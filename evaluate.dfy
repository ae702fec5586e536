/**
 * The evaluation script: for each claim directory, gather the description,
 * the concatenated markdown metadata and at most one image, submit them to
 * the claims service, and score the answer against `answer.json`; then
 * aggregate the records into an accuracy, a confusion matrix and a
 * simplified report.
 *
 * The file system and the service are parameters: a directory is its
 * listing plus functions that give each read's contents or error, and the
 * service is a function from the submitted payload to the decoded reply or
 * the error raised.
 */
module Evaluate {
  import opened Wrappers
  import opened Text
  import opened Records
  import opened Metrics
  import Minio

  /** A claim directory: its file names in listing order and what each read yields. */
  datatype ClaimDir = ClaimDir(
    entries: seq<string>,
    readText: string -> Result<string, string>,
    openBinary: string -> Result<Minio.Bytes, string>,
    answer: Result<JsonObject, string>)

  datatype ImageFile = ImageFile(name: string, data: Minio.Bytes)

  /** The multipart form: `claim_message`, `claim_metadata` and the optional `claim_image`. */
  datatype Payload = Payload(claimMessage: Minio.Bytes, claimMetadata: string, claimImage: Option<ImageFile>)

  const DescriptionFile := "description.txt"

  /** `claim_dir.glob("*" + suffix)`: the names ending in `suffix`, in listing order. */
  function Glob(entries: seq<string>, suffix: string): (r: seq<string>)
    ensures forall n :: n in r <==> n in entries && EndsWith(n, suffix)
    decreases |entries|
  {
    if entries == [] then []
    else (if EndsWith(entries[0], suffix) then [entries[0]] else []) + Glob(entries[1..], suffix)
  }

  // ---------------------------------------------------------------------
  // Metadata concatenation
  // ---------------------------------------------------------------------

  /** The block one markdown file contributes. */
  function Section(name: string, content: string): string {
    "\n\n### " + name + "\n\n" + content
  }

  /** The concatenated metadata of `files`, or the error of the first read that fails. */
  function MetadataOf(files: seq<string>, readText: string -> Result<string, string>): Result<string, string>
    decreases |files|
  {
    if files == [] then Success("")
    else
      match MetadataOf(files[..|files| - 1], readText)
      case Failure(e) => Failure(e)
      case Success(acc) =>
        var name := files[|files| - 1];
        if name == "answer.json" then Success(acc)
        else
          match readText(name)
          case Failure(e) => Failure(e)
          case Success(content) => Success(acc + Section(name, content))
  }

  /** One more file extends a successful concatenation by its section, or fails with its error. */
  lemma MetadataStep(files: seq<string>, i: nat, readText: string -> Result<string, string>)
    requires i < |files| && MetadataOf(files[..i], readText).Success?
    ensures var acc := MetadataOf(files[..i], readText).value;
      MetadataOf(files[..i + 1], readText) ==
        if files[i] == "answer.json" then Success(acc)
        else match readText(files[i])
          case Failure(e) => Failure(e)
          case Success(content) => Success(acc + Section(files[i], content))
  {
    assert files[..i + 1][..i] == files[..i];
  }

  /** Once a prefix has failed, the whole concatenation fails with the same error. */
  lemma {:induction false} MetadataFailureSticks(files: seq<string>, k: nat, readText: string -> Result<string, string>)
    requires k <= |files| && MetadataOf(files[..k], readText).Failure?
    ensures MetadataOf(files, readText) == MetadataOf(files[..k], readText)
    decreases |files|
  {
    if k == |files| {
      assert files[..k] == files;
    } else {
      var init := files[..|files| - 1];
      assert init[..k] == files[..k];
      MetadataFailureSticks(init, k, readText);
    }
  }

  /** The metadata loop over the markdown files of the directory. */
  method BuildMetadata(d: ClaimDir) returns (r: Result<string, string>)
    ensures r == MetadataOf(Glob(d.entries, ".md"), d.readText)
  {
    var metadataFiles := Glob(d.entries, ".md");
    var metadataContent := "";
    var i := 0;
    while i < |metadataFiles|
      invariant 0 <= i <= |metadataFiles|
      invariant MetadataOf(metadataFiles[..i], d.readText) == Success(metadataContent)
    {
      var mdFile := metadataFiles[i];
      MetadataStep(metadataFiles, i, d.readText);
      if mdFile != "answer.json" {
        var content := d.readText(mdFile);
        if content.Failure? {
          MetadataFailureSticks(metadataFiles, i + 1, d.readText);
          return Failure(content.error);
        }
        metadataContent := metadataContent + Section(mdFile, content.value);
      }
      i := i + 1;
    }
    assert metadataFiles[..i] == metadataFiles;
    return Success(metadataContent);
  }

  /** No name that ends in ".md" is "answer.json", so the exclusion never removes a file. */
  lemma AnswerJsonNeverExcluded(entries: seq<string>)
    ensures "answer.json" !in Glob(entries, ".md")
  {
    assert !EndsWith("answer.json", ".md") by {
      assert "answer.json"[8..] == "son";
    }
  }

  /** The concatenation succeeds iff every read succeeds. */
  lemma {:induction false} MetadataSucceedsIff(files: seq<string>, readText: string -> Result<string, string>)
    requires "answer.json" !in files
    ensures MetadataOf(files, readText).Success? <==> forall k :: 0 <= k < |files| ==> readText(files[k]).Success?
    decreases |files|
  {
    if files != [] {
      var init := files[..|files| - 1];
      assert forall n :: n in init ==> n in files;
      MetadataSucceedsIff(init, readText);
      assert forall k :: 0 <= k < |init| ==> init[k] == files[k];
    }
  }

  /** When some read fails, the error is that of the first failing file in listing order. */
  lemma {:induction false} MetadataFirstFailure(files: seq<string>, readText: string -> Result<string, string>, k: nat)
    requires "answer.json" !in files
    requires k < |files| && readText(files[k]).Failure?
    requires forall j :: 0 <= j < k ==> readText(files[j]).Success?
    ensures MetadataOf(files, readText) == Failure(readText(files[k]).error)
    decreases |files|
  {
    var init := files[..|files| - 1];
    assert forall n :: n in init ==> n in files;
    if k < |files| - 1 {
      MetadataFirstFailure(init, readText, k);
    } else {
      MetadataSucceedsIff(init, readText);
    }
  }

  /** Each successful read appends exactly its own section after what came before. */
  lemma MetadataAppends(files: seq<string>, name: string, content: string, readText: string -> Result<string, string>)
    requires name != "answer.json" && readText(name) == Success(content)
    requires MetadataOf(files, readText).Success?
    ensures MetadataOf(files + [name], readText) == Success(MetadataOf(files, readText).value + Section(name, content))
  {
    assert (files + [name])[..|files|] == files;
  }

  // ---------------------------------------------------------------------
  // Image selection
  // ---------------------------------------------------------------------

  /** The priority order of image extensions. */
  const ImageExtensions: seq<string> := [".png", ".jpg", ".jpeg", ".webp", ".bmp", ".tiff"]

  /** The first name matching the first extension that matches anything. */
  function FirstImage(entries: seq<string>, exts: seq<string>): Option<string>
    decreases |exts|
  {
    if exts == [] then None
    else
      var images := Glob(entries, exts[0]);
      if images != [] then Some(images[0]) else FirstImage(entries, exts[1..])
  }

  /** Searching from extension `k` tries `exts[k]` and otherwise moves on to `k + 1`. */
  lemma FirstImageStep(entries: seq<string>, exts: seq<string>, k: nat)
    requires k < |exts|
    ensures FirstImage(entries, exts[k..]) ==
      if Glob(entries, exts[k]) != [] then Some(Glob(entries, exts[k])[0]) else FirstImage(entries, exts[k + 1..])
  {
    assert exts[k..][0] == exts[k];
    assert exts[k..][1..] == exts[k + 1..];
  }

  /** The image search loop, leaving the loop at the first extension with a match. */
  method SelectImage(entries: seq<string>) returns (imageFile: Option<string>)
    ensures imageFile == FirstImage(entries, ImageExtensions)
  {
    imageFile := None;
    var k := 0;
    while k < |ImageExtensions|
      invariant 0 <= k <= |ImageExtensions|
      invariant FirstImage(entries, ImageExtensions) == FirstImage(entries, ImageExtensions[k..])
    {
      FirstImageStep(entries, ImageExtensions, k);
      var images := Glob(entries, ImageExtensions[k]);
      if images != [] {
        imageFile := Some(images[0]);
        break;
      }
      k := k + 1;
    }
    if imageFile.None? {
      assert ImageExtensions[k..] == [];
    }
  }

  /** There is no image exactly when no extension has a match. */
  lemma {:induction false} NoImageIffNoMatch(entries: seq<string>, exts: seq<string>)
    ensures FirstImage(entries, exts).None? <==> forall k :: 0 <= k < |exts| ==> Glob(entries, exts[k]) == []
    decreases |exts|
  {
    if exts != [] {
      var rest := exts[1..];
      NoImageIffNoMatch(entries, rest);
      if FirstImage(entries, exts).None? {
        forall k | 0 <= k < |exts| ensures Glob(entries, exts[k]) == [] {
          if k > 0 {
            assert exts[k] == rest[k - 1];
          }
        }
      } else if Glob(entries, exts[0]) == [] {
        var k :| 0 <= k < |rest| && Glob(entries, rest[k]) != [];
        assert exts[k + 1] == rest[k];
      }
    }
  }

  /** The index of the extension the chosen image comes from. */
  lemma {:induction false} EarliestMatchIndex(entries: seq<string>, exts: seq<string>) returns (k: nat)
    requires FirstImage(entries, exts).Some?
    ensures k < |exts| && Glob(entries, exts[k]) != [] && FirstImage(entries, exts).value == Glob(entries, exts[k])[0]
    ensures forall j :: 0 <= j < k ==> Glob(entries, exts[j]) == []
    decreases |exts|
  {
    if Glob(entries, exts[0]) != [] {
      k := 0;
    } else {
      var rest := exts[1..];
      var k0 := EarliestMatchIndex(entries, rest);
      k := k0 + 1;
      assert exts[k] == rest[k0];
      forall j | 0 <= j < k ensures Glob(entries, exts[j]) == [] {
        if j > 0 {
          assert exts[j] == rest[j - 1];
        }
      }
    }
  }

  /** The chosen image is the first match of the earliest extension that has one. */
  lemma ImageIsEarliestMatch(entries: seq<string>, exts: seq<string>)
    requires FirstImage(entries, exts).Some?
    ensures exists k :: && 0 <= k < |exts| && Glob(entries, exts[k]) != []
                        && FirstImage(entries, exts).value == Glob(entries, exts[k])[0]
                        && forall j :: 0 <= j < k ==> Glob(entries, exts[j]) == []
  {
    var k := EarliestMatchIndex(entries, exts);
  }

  // ---------------------------------------------------------------------
  // Scoring one case
  // ---------------------------------------------------------------------

  /** The correctness rule: a match under Python's `==`, or a match of the alternative answer when there is one. */
  function IsCorrect(predicted: Value, expected: JsonObject): (c: bool)
    requires "decision" in expected
    ensures c <==> PyEq(predicted, expected["decision"])
                   || ("acceptable_decision" in expected && PyEq(predicted, expected["acceptable_decision"]))
  {
    var isCorrect := PyEq(predicted, expected["decision"]);
    if !isCorrect && "acceptable_decision" in expected then PyEq(predicted, expected["acceptable_decision"])
    else isCorrect
  }

  /**
   * Instances of the rule: an alternative answer rescues a prediction, and
   * only that one; a JSON `true` matches an expected `1`, a string never does.
   */
  lemma IsCorrectExamples()
    ensures IsCorrect(Str("UNCERTAIN"), map["decision" := Str("DENY"), "acceptable_decision" := Str("UNCERTAIN")])
    ensures !IsCorrect(Str("APPROVE"), map["decision" := Str("DENY"), "acceptable_decision" := Str("UNCERTAIN")])
    ensures !IsCorrect(Str("UNCERTAIN"), map["decision" := Str("DENY")])
    ensures IsCorrect(Bool(true), map["decision" := Int(1)])
    ensures !IsCorrect(Str("1"), map["decision" := Int(1)])
  {
    assert Str("APPROVE") != Str("DENY") by { assert "APPROVE"[0] != "DENY"[0]; }
    assert Str("APPROVE") != Str("UNCERTAIN") by { assert "APPROVE"[0] != "UNCERTAIN"[0]; }
    assert Str("UNCERTAIN") != Str("DENY") by { assert "UNCERTAIN"[0] != "DENY"[0]; }
  }

  /** `str(KeyError('decision'))`. */
  const MissingDecisionError := "'decision'"

  /** What is submitted, once the metadata and the chosen image are known and every file opened. */
  function PayloadOf(d: ClaimDir, metadata: string): (r: Result<Payload, string>)
    ensures d.openBinary(DescriptionFile).Failure? ==> r == Failure(d.openBinary(DescriptionFile).error)
    ensures r.Success? ==> r.value.claimMessage == d.openBinary(DescriptionFile).value && r.value.claimMetadata == metadata
    ensures r.Success? ==> (r.value.claimImage.Some? <==> FirstImage(d.entries, ImageExtensions).Some?)
    ensures r.Success? && r.value.claimImage.Some? ==>
      r.value.claimImage.value.name == FirstImage(d.entries, ImageExtensions).value
      && d.openBinary(r.value.claimImage.value.name) == Success(r.value.claimImage.value.data)
    ensures d.openBinary(DescriptionFile).Success?
            && (FirstImage(d.entries, ImageExtensions).None? || d.openBinary(FirstImage(d.entries, ImageExtensions).value).Success?)
            ==> r.Success?
    ensures d.openBinary(DescriptionFile).Success? && FirstImage(d.entries, ImageExtensions).Some?
            && d.openBinary(FirstImage(d.entries, ImageExtensions).value).Failure?
            ==> r == Failure(d.openBinary(FirstImage(d.entries, ImageExtensions).value).error)
  {
    match d.openBinary(DescriptionFile)
    case Failure(e) => Failure(e)
    case Success(description) =>
      match FirstImage(d.entries, ImageExtensions)
      case None => Success(Payload(description, metadata, None))
      case Some(name) =>
        match d.openBinary(name)
        case Failure(e) => Failure(e)
        case Success(bytes) => Success(Payload(description, metadata, Some(ImageFile(name, bytes))))
  }

  /**
   * The record scored from the service's reply and the expected answer: an
   * unreadable `answer.json` or one without "decision" gives an error record;
   * otherwise the record carries the reply's decision and explanation, the
   * expected ones, and the correctness rule applied to them.
   */
  function ScoreOf(num: nat, reply: JsonObject, answer: Result<JsonObject, string>): (r: CaseRecord)
    ensures r.claimNum == num
    ensures answer.Failure? ==> r == Failed(num, answer.error)
    ensures answer.Success? && "decision" !in answer.value ==> r == Failed(num, MissingDecisionError)
    ensures answer.Success? && "decision" in answer.value ==>
      && r.Scored?
      && r.predicted == Get(reply, "decision", Null)
      && r.predictedExplanation == Get(reply, "explanation", Str(""))
      && r.expected == answer.value["decision"]
      && r.expectedExplanation == Get(answer.value, "explanation", Str(""))
      && r.isCorrect == IsCorrect(r.predicted, answer.value)
    ensures r.Scored? && PyEq(r.predicted, r.expected) ==> r.isCorrect
  {
    match answer
    case Failure(e) => Failed(num, e)
    case Success(expected) =>
      if "decision" !in expected then Failed(num, MissingDecisionError)
      else
        var predicted := Get(reply, "decision", Null);
        Scored(num, predicted, Get(reply, "explanation", Str("")),
               expected["decision"], Get(expected, "explanation", Str("")),
               IsCorrect(predicted, expected))
  }

  /**
   * `process_claim`: the record of one case, any failure becoming an error
   * record. A scored record carries the decision of the reply to the
   * submitted payload, the decision of `answer.json`, and the correctness
   * rule applied to them.
   */
  function CaseRecordOf(d: ClaimDir, num: nat, api: Payload -> Result<JsonObject, string>): (r: CaseRecord)
    ensures r.claimNum == num
    ensures r.Scored? ==>
      && d.answer.Success? && "decision" in d.answer.value
      && r.expected == d.answer.value["decision"]
      && r.isCorrect == IsCorrect(r.predicted, d.answer.value)
    ensures r.Scored? ==>
      var metadata := MetadataOf(Glob(d.entries, ".md"), d.readText);
      && metadata.Success?
      && PayloadOf(d, metadata.value).Success?
      && api(PayloadOf(d, metadata.value).value).Success?
      && r.predicted == Get(api(PayloadOf(d, metadata.value).value).value, "decision", Null)
    ensures var metadata := MetadataOf(Glob(d.entries, ".md"), d.readText);
      metadata.Failure? ==> r == Failed(num, metadata.error)
    ensures var metadata := MetadataOf(Glob(d.entries, ".md"), d.readText);
      metadata.Success? && PayloadOf(d, metadata.value).Failure? ==> r == Failed(num, PayloadOf(d, metadata.value).error)
    ensures var metadata := MetadataOf(Glob(d.entries, ".md"), d.readText);
      metadata.Success? && PayloadOf(d, metadata.value).Success? && api(PayloadOf(d, metadata.value).value).Failure? ==>
      r == Failed(num, api(PayloadOf(d, metadata.value).value).error)
    ensures r.Scored? && PyEq(r.predicted, r.expected) ==> r.isCorrect
  {
    match MetadataOf(Glob(d.entries, ".md"), d.readText)
    case Failure(e) => Failed(num, e)
    case Success(metadata) =>
      match PayloadOf(d, metadata)
      case Failure(e) => Failed(num, e)
      case Success(payload) =>
        match api(payload)
        case Failure(e) => Failed(num, e)
        case Success(reply) => ScoreOf(num, reply, d.answer)
  }

  /** `process_claim` step by step, in the script's order: the step-by-step rendering of `CaseRecordOf`. */
  method ProcessClaim(d: ClaimDir, num: nat, api: Payload -> Result<JsonObject, string>)
    returns (record: CaseRecord)
    ensures record == CaseRecordOf(d, num, api)
  {
    var metadata := BuildMetadata(d);
    if metadata.Failure? {
      return Failed(num, metadata.error);
    }
    var imageFile := SelectImage(d.entries);
    var description := d.openBinary(DescriptionFile);
    if description.Failure? {
      return Failed(num, description.error);
    }
    var image: Option<ImageFile> := None;
    if imageFile.Some? {
      var bytes := d.openBinary(imageFile.value);
      if bytes.Failure? {
        return Failed(num, bytes.error);
      }
      image := Some(ImageFile(imageFile.value, bytes.value));
    }
    var response := api(Payload(description.value, metadata.value, image));
    if response.Failure? {
      return Failed(num, response.error);
    }
    record := ScoreOf(num, response.value, d.answer);
  }

  /** A scored record exists exactly when every step succeeded and `answer.json` names a decision. */
  lemma ScoredIff(d: ClaimDir, num: nat, api: Payload -> Result<JsonObject, string>)
    ensures CaseRecordOf(d, num, api).Scored? <==>
      && MetadataOf(Glob(d.entries, ".md"), d.readText).Success?
      && PayloadOf(d, MetadataOf(Glob(d.entries, ".md"), d.readText).value).Success?
      && api(PayloadOf(d, MetadataOf(Glob(d.entries, ".md"), d.readText).value).value).Success?
      && d.answer.Success? && "decision" in d.answer.value
  {
  }

  // ---------------------------------------------------------------------
  // The batch over claims 1..25
  // ---------------------------------------------------------------------

  /** The highest claim number the batch visits. */
  const LastClaim := 25

  /** The records of the existing directories `claim 1` .. `claim n`, in order. */
  function RecordsUpTo(dataset: map<nat, ClaimDir>, api: Payload -> Result<JsonObject, string>, n: nat): seq<CaseRecord>
    decreases n
  {
    if n == 0 then []
    else RecordsUpTo(dataset, api, n - 1) + (if n in dataset then [CaseRecordOf(dataset[n], n, api)] else [])
  }

  /** The sequential loop that awaits each case in turn. */
  method RunDataset(dataset: map<nat, ClaimDir>, api: Payload -> Result<JsonObject, string>)
    returns (results: seq<CaseRecord>)
    ensures results == RecordsUpTo(dataset, api, LastClaim)
  {
    results := [];
    for i := 1 to LastClaim + 1
      invariant results == RecordsUpTo(dataset, api, i - 1)
    {
      if i in dataset {
        var result := ProcessClaim(dataset[i], i, api);
        results := results + [result];
      }
    }
  }

  /** The records up to `n - 1` are the first records up to `n`. */
  lemma RecordsUpToPrefix(dataset: map<nat, ClaimDir>, api: Payload -> Result<JsonObject, string>, n: nat)
    requires n > 0
    ensures var prev, rs := RecordsUpTo(dataset, api, n - 1), RecordsUpTo(dataset, api, n);
      && |prev| <= |rs|
      && (forall k :: 0 <= k < |prev| ==> rs[k] == prev[k])
      && (n in dataset ==> |rs| == |prev| + 1 && rs[|prev|] == CaseRecordOf(dataset[n], n, api))
      && (n !in dataset ==> rs == prev)
  {
  }

  /** Each record belongs to an existing directory in range and is that directory's record. */
  lemma {:induction false} RecordsUpToMembers(dataset: map<nat, ClaimDir>, api: Payload -> Result<JsonObject, string>, n: nat)
    ensures forall k :: 0 <= k < |RecordsUpTo(dataset, api, n)| ==>
      var r := RecordsUpTo(dataset, api, n)[k];
      1 <= r.claimNum <= n && r.claimNum in dataset && r == CaseRecordOf(dataset[r.claimNum], r.claimNum, api)
    decreases n
  {
    if n > 0 {
      RecordsUpToMembers(dataset, api, n - 1);
      RecordsUpToPrefix(dataset, api, n);
    }
  }

  /** The records come in strictly ascending claim order. */
  lemma {:induction false} RecordsUpToAscending(dataset: map<nat, ClaimDir>, api: Payload -> Result<JsonObject, string>, n: nat)
    ensures forall j, k :: 0 <= j < k < |RecordsUpTo(dataset, api, n)| ==>
      RecordsUpTo(dataset, api, n)[j].claimNum < RecordsUpTo(dataset, api, n)[k].claimNum
    decreases n
  {
    if n > 0 {
      RecordsUpToAscending(dataset, api, n - 1);
      RecordsUpToMembers(dataset, api, n - 1);
      RecordsUpToPrefix(dataset, api, n);
    }
  }

  /** Every existing directory in range has a record. */
  lemma {:induction false} RecordsUpToComplete(dataset: map<nat, ClaimDir>, api: Payload -> Result<JsonObject, string>, n: nat)
    ensures forall i :: 1 <= i <= n && i in dataset ==>
      exists k :: 0 <= k < |RecordsUpTo(dataset, api, n)| && RecordsUpTo(dataset, api, n)[k].claimNum == i
    decreases n
  {
    if n > 0 {
      RecordsUpToComplete(dataset, api, n - 1);
      RecordsUpToPrefix(dataset, api, n);
      var prev := RecordsUpTo(dataset, api, n - 1);
      if n in dataset {
        assert RecordsUpTo(dataset, api, n)[|prev|].claimNum == n;
      }
    }
  }

  /**
   * One record per existing directory among `claim 1` .. `claim n`, in
   * ascending claim order, each the record of its own directory.
   */
  lemma RecordsUpToShape(dataset: map<nat, ClaimDir>, api: Payload -> Result<JsonObject, string>, n: nat)
    ensures forall k :: 0 <= k < |RecordsUpTo(dataset, api, n)| ==>
      var r := RecordsUpTo(dataset, api, n)[k];
      1 <= r.claimNum <= n && r.claimNum in dataset && r == CaseRecordOf(dataset[r.claimNum], r.claimNum, api)
    ensures forall j, k :: 0 <= j < k < |RecordsUpTo(dataset, api, n)| ==>
      RecordsUpTo(dataset, api, n)[j].claimNum < RecordsUpTo(dataset, api, n)[k].claimNum
    ensures forall i :: 1 <= i <= n && i in dataset ==>
      exists k :: 0 <= k < |RecordsUpTo(dataset, api, n)| && RecordsUpTo(dataset, api, n)[k].claimNum == i
  {
    RecordsUpToMembers(dataset, api, n);
    RecordsUpToAscending(dataset, api, n);
    RecordsUpToComplete(dataset, api, n);
  }

  // ---------------------------------------------------------------------
  // Aggregation
  // ---------------------------------------------------------------------

  /** `sum(1 for r in results if r.get('is_correct', False))`. */
  function CorrectCount(rs: seq<CaseRecord>): (n: nat)
    ensures n <= |rs|
    decreases |rs|
  {
    if rs == [] then 0
    else CorrectCount(rs[..|rs| - 1]) + (if rs[|rs| - 1].Correct() then 1 else 0)
  }

  /**
   * A record whose prediction equals its expectation under Python's `==` is
   * marked correct. The converse needs `acceptable_decision`, which the record
   * does not keep; `CaseRecordOf` states the full rule against `answer.json`.
   */
  predicate Consistent(r: CaseRecord) {
    r.Scored? && PyEq(r.predicted, r.expected) ==> r.isCorrect
  }

  /** Every diagonal cell of the matrix is a correct prediction, so the matrix trace never exceeds the correct count. */
  lemma {:induction false} DiagonalAtMostCorrect(rs: seq<CaseRecord>)
    requires forall k :: 0 <= k < |rs| ==> Consistent(rs[k])
    ensures DiagonalCount(rs) <= CorrectCount(rs)
    decreases |rs|
  {
    if rs != [] {
      DiagonalAtMostCorrect(rs[..|rs| - 1]);
      assert Consistent(rs[|rs| - 1]);
    }
  }

  /** For the batch's records, the matrix accuracy's numerator is at most the printed correct count. */
  lemma TraceAtMostCorrect(dataset: map<nat, ClaimDir>, api: Payload -> Result<JsonObject, string>)
    ensures CellTrace(RecordsUpTo(dataset, api, LastClaim)) <= CorrectCount(RecordsUpTo(dataset, api, LastClaim))
  {
    var rs := RecordsUpTo(dataset, api, LastClaim);
    RecordsUpToShape(dataset, api, LastClaim);
    TraceIsDiagonal(rs);
    DiagonalAtMostCorrect(rs);
  }

  // ---------------------------------------------------------------------
  // The simplified report
  // ---------------------------------------------------------------------

  /** One entry of `eval_results.json`; `gtReason` is absent unless the expected explanation is truthy. */
  datatype SimpleEntry = SimpleEntry(claim: string, decision: Value, reason: Value, gtDecision: Value, gtReason: Option<Value>)

  /** The entry built from a record's dictionary with the script's defaults. */
  function SimplifyRecord(r: CaseRecord): SimpleEntry {
    var d := RecordDict(r);
    var gtExplanation := Get(d, "expected_explanation", Str(""));
    SimpleEntry("claim " + NatToString(r.claimNum),
                Get(d, "predicted_decision", Str("ERROR")),
                Get(d, "predicted_explanation", Get(d, "error", Str("Unknown error"))),
                Get(d, "expected_decision", Str("")),
                if Truthy(gtExplanation) then Some(gtExplanation) else None)
  }

  /**
   * An error record reports "ERROR" with its error as the reason and an empty
   * expected decision; a scored record reports its own fields. The
   * "Unknown error" default is never used.
   */
  lemma SimplifyRecordFields(r: CaseRecord)
    ensures r.Failed? ==> SimplifyRecord(r) == SimpleEntry("claim " + NatToString(r.claimNum), Str("ERROR"), Str(r.error), Str(""), None)
    ensures r.Scored? ==> SimplifyRecord(r) == SimpleEntry("claim " + NatToString(r.claimNum), r.predicted, r.predictedExplanation, r.expected,
                                                           if Truthy(r.expectedExplanation) then Some(r.expectedExplanation) else None)
  {
  }

  /** Distinct claim numbers give distinct "claim N" labels. */
  lemma ClaimLabelInjective(m: nat, n: nat)
    requires "claim " + NatToString(m) == "claim " + NatToString(n)
    ensures m == n
  {
    assert NatToString(m) == ("claim " + NatToString(m))[6..];
    assert NatToString(n) == ("claim " + NatToString(n))[6..];
    NatToStringInjective(m, n);
  }

  /** The `simplified_results.append` loop. */
  method SimplifyResults(results: seq<CaseRecord>) returns (entries: seq<SimpleEntry>)
    ensures |entries| == |results|
    ensures forall k :: 0 <= k < |results| ==> entries[k] == SimplifyRecord(results[k])
  {
    entries := [];
    var i := 0;
    while i < |results|
      invariant 0 <= i <= |results|
      invariant |entries| == i
      invariant forall k :: 0 <= k < i ==> entries[k] == SimplifyRecord(results[k])
    {
      entries := entries + [SimplifyRecord(results[i])];
      i := i + 1;
    }
  }

  /** What the evaluation produces: the records, the counts, the matrix and the report entries. */
  datatype Report = Report(results: seq<CaseRecord>, total: nat, correct: nat, accuracy: real,
                           matrix: Matrix, entries: seq<SimpleEntry>)

  /** `evaluate_dataset`: nothing when the dataset directory does not exist. */
  method EvaluateDataset(dataset: Option<map<nat, ClaimDir>>, api: Payload -> Result<JsonObject, string>)
    returns (report: Option<Report>)
    ensures dataset.None? <==> report.None?
    ensures report.Some? ==>
      var rep := report.value;
      && rep.results == RecordsUpTo(dataset.value, api, LastClaim)
      && rep.total == |rep.results|
      && rep.correct == CorrectCount(rep.results) <= rep.total
      && rep.accuracy == Accuracy(rep.correct, rep.total)
      && WellShaped(rep.matrix)
      && (forall e, p :: e in rep.matrix && p in rep.matrix[e] ==> rep.matrix[e][p] == CellCount(rep.results, e, p))
      && |rep.entries| == |rep.results|
      && (forall k :: 0 <= k < |rep.results| ==> rep.entries[k] == SimplifyRecord(rep.results[k]))
  {
    if dataset.None? {
      return None;
    }
    var results := RunDataset(dataset.value, api);
    var totalClaims := |results|;
    var correctPredictions := CorrectCount(results);
    var accuracy := Accuracy(correctPredictions, totalClaims);
    var matrix := CalculateConfusionMatrix(results);
    var simplified := SimplifyResults(results);
    return Some(Report(results, totalClaims, correctPredictions, accuracy, matrix, simplified));
  }
}
