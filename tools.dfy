/**
 * The four tools the agent may call. Each turns a failure of its
 * collaborator into a descriptive string instead of raising; the last one
 * builds the decision record and ends the run.
 */
module Tools {
  import opened Wrappers
  import opened Schemas
  import opened Minio

  const PolicyErrorPrefix := "Error retrieving policy: "

  /** `get_policy`: the policy text, or the error folded into a message. */
  function GetPolicy(policy: Result<string, string>): (r: string)
    ensures policy.Success? ==> r == policy.value
    ensures policy.Failure? ==> r == PolicyErrorPrefix + policy.error
  {
    match policy
    case Success(text) => text
    case Failure(e) => PolicyErrorPrefix + e
  }

  function MetadataErrorPrefix(claimId: string): string {
    "Error retrieving metadata for claim " + claimId + ": "
  }

  /** `get_metadata`: the claim's metadata object, or the error folded into a message. */
  function GetMetadata(claimId: string, fetchText: string -> Result<string, string>): (r: string)
    ensures fetchText(MetadataPath(claimId)).Success? ==> r == fetchText(MetadataPath(claimId)).value
    ensures fetchText(MetadataPath(claimId)).Failure? ==>
      r == MetadataErrorPrefix(claimId) + fetchText(MetadataPath(claimId)).error
  {
    match GetClaimMetadata(claimId, fetchText)
    case Success(metadata) => metadata
    case Failure(e) => MetadataErrorPrefix(claimId) + e
  }

  const NoImageMessage := "No image document " + "has been provided " + "by the user for this claim."

  function ImageErrorPrefix(claimId: string): string {
    "Error retrieving/" + "analyzing image " + "for claim " + claimId + ": "
  }

  /**
   * `get_info_from_image` over any image fetcher: the fetch may fail, may
   * return `None`, or may return bytes, which go to the vision model with
   * the query. A failure of either step is folded into a message.
   */
  function GetInfoFromImage(claimId: string, query: string, image: Result<Option<Bytes>, string>,
                            vision: (Bytes, string) -> Result<string, string>): (r: string)
    ensures image == Success(None) ==> r == NoImageMessage
    ensures image.Failure? ==> r == ImageErrorPrefix(claimId) + image.error
    ensures image.Success? && image.value.Some? ==>
      var answer := vision(image.value.value, query);
      r == if answer.Success? then answer.value else ImageErrorPrefix(claimId) + answer.error
  {
    match image
    case Failure(e) => ImageErrorPrefix(claimId) + e
    case Success(None) => NoImageMessage
    case Success(Some(bytes)) =>
      match vision(bytes, query)
      case Success(info) => info
      case Failure(e) => ImageErrorPrefix(claimId) + e
  }

  /** The image fetcher the tool actually uses: the object store's reader, which never yields `None`. */
  function FetchImage(claimId: string, fetch: string -> Result<Bytes, string>): (r: Result<Option<Bytes>, string>)
    ensures r != Success(None)
    ensures r.Success? <==> fetch(ImagePath(claimId)).Success?
    ensures r.Success? ==> r.value.value == fetch(ImagePath(claimId)).value
    ensures r.Failure? ==> r.error == fetch(ImagePath(claimId)).error
  {
    match GetImageFromMinio(claimId, fetch)
    case Success(bytes) => Success(Some(bytes))
    case Failure(e) => Failure(e)
  }

  /**
   * Through the object store's reader, the "no image" sentinel can only be
   * produced by the vision model itself: the `None` branch is unreachable.
   */
  lemma NoImageBranchUnreachable(claimId: string, query: string, fetch: string -> Result<Bytes, string>,
                                 vision: (Bytes, string) -> Result<string, string>)
    ensures FetchImage(claimId, fetch) != Success(None)
    ensures GetInfoFromImage(claimId, query, FetchImage(claimId, fetch), vision) == NoImageMessage ==>
      fetch(ImagePath(claimId)).Success? && vision(fetch(ImagePath(claimId)).value, query) == Success(NoImageMessage)
  {
    forall e ensures ImageErrorPrefix(claimId) + e != NoImageMessage {
      assert ImageErrorPrefix(claimId)[0] == 'E';
      assert (ImageErrorPrefix(claimId) + e)[0] == 'E';
      assert NoImageMessage[0] == 'N';
    }
  }

  /**
   * A reader that yields `None` for a claim without an image object, as the
   * tool's documented result requires: `present` says whether the store holds
   * an object at a path, and only a present object is read.
   */
  function FetchImageChecked(claimId: string, present: string -> bool,
                             fetch: string -> Result<Bytes, string>): (r: Result<Option<Bytes>, string>)
    ensures !present(ImagePath(claimId)) <==> r == Success(None)
    ensures present(ImagePath(claimId)) ==> r == FetchImage(claimId, fetch)
  {
    if present(ImagePath(claimId)) then FetchImage(claimId, fetch) else Success(None)
  }

  /**
   * With the checked reader a claim without an image gets the "no image"
   * sentinel, and a vision answer or error otherwise; the model is never
   * called without an image.
   */
  lemma MissingImageGivesSentinel(claimId: string, query: string, present: string -> bool,
                                  fetch: string -> Result<Bytes, string>,
                                  vision: (Bytes, string) -> Result<string, string>)
    ensures !present(ImagePath(claimId)) ==>
      GetInfoFromImage(claimId, query, FetchImageChecked(claimId, present, fetch), vision) == NoImageMessage
    ensures present(ImagePath(claimId)) ==>
      GetInfoFromImage(claimId, query, FetchImageChecked(claimId, present, fetch), vision) ==
      GetInfoFromImage(claimId, query, FetchImage(claimId, fetch), vision)
  {
  }

  lemma PrefixCancels(prefix: string, e1: string, e2: string)
    requires prefix + e1 == prefix + e2
    ensures e1 == e2
  {
    assert e1 == (prefix + e1)[|prefix|..];
    assert e2 == (prefix + e2)[|prefix|..];
  }

  /** A failure message of a tool names the error it folds, so distinct errors give distinct messages. */
  lemma ErrorMessagesKeepError(claimId: string, e1: string, e2: string)
    ensures PolicyErrorPrefix + e1 == PolicyErrorPrefix + e2 ==> e1 == e2
    ensures MetadataErrorPrefix(claimId) + e1 == MetadataErrorPrefix(claimId) + e2 ==> e1 == e2
    ensures ImageErrorPrefix(claimId) + e1 == ImageErrorPrefix(claimId) + e2 ==> e1 == e2
  {
    if PolicyErrorPrefix + e1 == PolicyErrorPrefix + e2 {
      PrefixCancels(PolicyErrorPrefix, e1, e2);
    }
    if MetadataErrorPrefix(claimId) + e1 == MetadataErrorPrefix(claimId) + e2 {
      PrefixCancels(MetadataErrorPrefix(claimId), e1, e2);
    }
    if ImageErrorPrefix(claimId) + e1 == ImageErrorPrefix(claimId) + e2 {
      PrefixCancels(ImageErrorPrefix(claimId), e1, e2);
    }
  }

  /** `present_decision`: the record carries exactly the decision and explanation given. */
  function PresentDecision(decision: ClaimDecision, explanation: string): (r: ClaimDecisionResponse)
    ensures r.decision == decision && r.explanation == Some(explanation)
  {
    ClaimDecisionResponse(decision, Some(explanation))
  }

  /**
   * `present_decision` called with a raw decision string: the argument
   * schema admits exactly the three enum values and refuses anything else.
   */
  function PresentRawDecision(decision: string, explanation: string): (r: Option<ClaimDecisionResponse>)
    ensures r.Some? <==> decision in DecisionLabels
    ensures r.Some? ==> DecisionValue(r.value.decision) == decision && r.value.explanation == Some(explanation)
  {
    LabelsAreValues(decision);
    match ParseDecision(decision)
    case None => None
    case Some(d) => Some(PresentDecision(d, explanation))
  }

  /** A tool as the agent sees it: its name and whether its result ends the run. */
  datatype Tool = Tool(name: string, returnDirect: bool)

  /** `tools`: the four tools in order; `@tool` without arguments leaves `return_direct` false. */
  const ToolList: seq<Tool> := [
    Tool("get_policy", false),
    Tool("get_metadata", false),
    Tool("get_info_from_image", false),
    Tool("present_decision", true)
  ]

  /** Exactly one tool ends the run, and it is the decision tool; the names are distinct. */
  lemma OnlyPresentDecisionReturnsDirect()
    ensures |ToolList| == 4
    ensures forall k :: 0 <= k < |ToolList| ==> (ToolList[k].returnDirect <==> ToolList[k].name == "present_decision")
    ensures forall j, k :: 0 <= j < k < |ToolList| ==> ToolList[j].name != ToolList[k].name
  {
    assert ToolList[0].name[4] == 'p' && ToolList[1].name[4] == 'm' && ToolList[2].name[4] == 'i';
    assert ToolList[3].name[0] == 'p';
  }
}
