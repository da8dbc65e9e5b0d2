/** The repository configuration of a session resource: a required input
    location, an optional output location and an optional auto-push flag,
    with the rules that admit such a pair and the encoding that stores it
    in the resource specification (components/backend/types/session.go).
 */
module Session {
  import opened Wrappers
  import opened Strings

  /** A git repository location: a URL and an optional branch
      (a nil `*string` branch is `None`). */
  datatype RepoLocation = RepoLocation(url: string, branch: Option<string>)

  /** A repository entry of the session: every part is an optional pointer
      in the source, so every part is an `Option` here. */
  datatype SimpleRepo = SimpleRepo(input: Option<RepoLocation>, output: Option<RepoLocation>, autoPush: Option<bool>)

  /** The untyped values that the encoding stores: a `map[string]interface{}`
      holding strings, booleans and nested maps. */
  datatype Value = VStr(str: string) | VBool(flag: bool) | VMap(entries: map<string, Value>)

  /** The three errors validation can report, first failing rule first. */
  datatype RepoError = MissingInput | MissingInputURL | IdenticalInputOutput

  /** The text of each error, as the callers and the tests compare it. */
  function Message(e: RepoError): (msg: string)
    ensures msg != ""
  {
    match e
    case MissingInput => "input is required"
    case MissingInputURL => "input.url is required"
    case IdenticalInputOutput => "output repository must differ from input (different URL or branch required)"
  }

  /** Each error has its own text, so callers can tell them apart by
      message alone. */
  lemma MessagesDistinct(a: RepoError, b: RepoError)
    ensures Message(a) == Message(b) ==> a == b
  {
  }

  /** The branch as validation compares it: a missing branch reads as "",
      a present one is trimmed. */
  function NormalizeBranch(b: Option<string>): string {
    match b
    case None => ""
    case Some(s) => TrimSpace(s)
  }

  /** Two locations name the same target once URLs are trimmed and branches
      normalised. */
  predicate SameTarget(a: RepoLocation, b: RepoLocation) {
    TrimSpace(a.url) == TrimSpace(b.url) && NormalizeBranch(a.branch) == NormalizeBranch(b.branch)
  }

  /** `SimpleRepo.ValidateRepo`: the three rules in their fixed order, the
      first one that fails deciding the error. */
  function ValidateRepo(r: SimpleRepo): (res: Outcome<RepoError>)
    ensures res == Fail(MissingInput) <==> r.input.None?
    ensures res == Fail(MissingInputURL) <==> r.input.Some? && AllSpace(r.input.value.url)
    ensures res == Fail(IdenticalInputOutput) <==>
      && r.input.Some? && !AllSpace(r.input.value.url)
      && r.output.Some? && SameTarget(r.input.value, r.output.value)
    ensures res.Pass? <==>
      && r.input.Some? && !AllSpace(r.input.value.url)
      && (r.output.None? || !SameTarget(r.input.value, r.output.value))
  {
    match r.input
    case None => Fail(MissingInput)
    case Some(input) =>
      TrimSpaceEmptyIff(input.url);
      if TrimSpace(input.url) == "" then Fail(MissingInputURL)
      else match r.output
        case None => Pass
        case Some(output) =>
          var inputURL, outputURL := TrimSpace(input.url), TrimSpace(output.url);
          var inputBranch := if input.branch.Some? then TrimSpace(input.branch.value) else "";
          var outputBranch := if output.branch.Some? then TrimSpace(output.branch.value) else "";
          if inputURL == outputURL && inputBranch == outputBranch then Fail(IdenticalInputOutput)
          else Pass
  }

  /** The inner map of one location: `"url"` always, `"branch"` only when
      the branch pointer is set (an empty branch is still stored). */
  function LocationMap(l: RepoLocation): (m: map<string, Value>)
    ensures m.Keys == {"url"} + (if l.branch.Some? then {"branch"} else {})
    ensures m["url"] == VStr(l.url)
    ensures l.branch.Some? ==> m["branch"] == VStr(l.branch.value)
  {
    match l.branch
    case None => map["url" := VStr(l.url)]
    case Some(b) => map["url" := VStr(l.url), "branch" := VStr(b)]
  }

  /** The shape of a stored location: a map with a string `"url"`, an
      optional string `"branch"`, and no other key. */
  predicate WellFormedLocation(v: Value) {
    && v.VMap? && v.entries.Keys <= {"url", "branch"}
    && "url" in v.entries && v.entries["url"].VStr?
    && ("branch" in v.entries ==> v.entries["branch"].VStr?)
  }

  /** The shape of a stored repository entry: either empty, or a
      well-formed `"input"`, optionally a well-formed `"output"` and a
      boolean `"autoPush"`, and no other key. */
  predicate WellFormedRepo(m: map<string, Value>) {
    || m == map[]
    || (&& m.Keys <= {"input", "output", "autoPush"}
        && "input" in m && WellFormedLocation(m["input"])
        && ("output" in m ==> WellFormedLocation(m["output"]))
        && ("autoPush" in m ==> m["autoPush"].VBool?))
  }

  /** The stored form of a repository entry, as a value. Nothing is stored
      without an input; otherwise each optional part gives a key exactly
      when it is set, and the strings are stored as given, untrimmed. */
  function EncodeRepo(r: SimpleRepo): (m: map<string, Value>)
    ensures r.input.None? ==> m == map[]
    ensures "input" in m <==> r.input.Some?
    ensures "output" in m <==> r.input.Some? && r.output.Some?
    ensures "autoPush" in m <==> r.input.Some? && r.autoPush.Some?
    ensures m.Keys <= {"input", "output", "autoPush"}
    ensures "input" in m ==> m["input"] == VMap(LocationMap(r.input.value))
    ensures "output" in m ==> m["output"] == VMap(LocationMap(r.output.value))
    ensures "autoPush" in m ==> m["autoPush"] == VBool(r.autoPush.value)
    ensures WellFormedRepo(m)
  {
    if r.input.None? then map[]
    else
      var withInput := map["input" := VMap(LocationMap(r.input.value))];
      var withOutput := if r.output.Some? then withInput["output" := VMap(LocationMap(r.output.value))] else withInput;
      if r.autoPush.Some? then withOutput["autoPush" := VBool(r.autoPush.value)] else withOutput
  }

  /** `SimpleRepo.ToMapForCR`: builds the stored map key by key. */
  method ToMapForCR(r: SimpleRepo) returns (m: map<string, Value>)
    ensures m == EncodeRepo(r)
  {
    m := map[];
    if r.input.Some? {
      var input := r.input.value;
      var inputMap := map["url" := VStr(input.url)];
      if input.branch.Some? {
        inputMap := inputMap["branch" := VStr(input.branch.value)];
      }
      m := m["input" := VMap(inputMap)];

      if r.output.Some? {
        var output := r.output.value;
        var outputMap := map["url" := VStr(output.url)];
        if output.branch.Some? {
          outputMap := outputMap["branch" := VStr(output.branch.value)];
        }
        m := m["output" := VMap(outputMap)];
      }

      if r.autoPush.Some? {
        m := m["autoPush" := VBool(r.autoPush.value)];
      }
    }
  }

  /** A missing branch, an empty one and an all-white-space one are
      interchangeable in validation, and no other branch is equivalent to
      a missing one. */
  lemma BranchNormalization(s: string)
    ensures NormalizeBranch(Some(s)) == NormalizeBranch(None) <==> AllSpace(s)
  {
    TrimSpaceEmptyIff(s);
  }

  /** Validation sees through white-space padding of the input: padding its
      URL or its branch never changes the outcome. */
  lemma ValidatePaddingInvariant(r: SimpleRepo, p: string, q: string)
    requires AllSpace(p) && AllSpace(q)
    requires r.input.Some?
    ensures ValidateRepo(r.(input := Some(r.input.value.(url := p + r.input.value.url + q)))) == ValidateRepo(r)
    ensures r.input.value.branch.Some? ==>
      ValidateRepo(r.(input := Some(r.input.value.(branch := Some(p + r.input.value.branch.value + q))))) == ValidateRepo(r)
  {
    var u := r.input.value.url;
    TrimSpaceUnpads(p, u, q);
    TrimSpaceEmptyIff(u);
    TrimSpaceEmptyIff(p + u + q);
    if r.input.value.branch.Some? {
      TrimSpaceUnpads(p, r.input.value.branch.value, q);
    }
  }

  /** The same for the output: padding its URL or its branch with white
      space never changes the outcome, so only the trimmed values matter. */
  lemma ValidateOutputPaddingInvariant(r: SimpleRepo, p: string, q: string)
    requires AllSpace(p) && AllSpace(q)
    requires r.output.Some?
    ensures ValidateRepo(r.(output := Some(r.output.value.(url := p + r.output.value.url + q)))) == ValidateRepo(r)
    ensures r.output.value.branch.Some? ==>
      ValidateRepo(r.(output := Some(r.output.value.(branch := Some(p + r.output.value.branch.value + q))))) == ValidateRepo(r)
  {
    TrimSpaceUnpads(p, r.output.value.url, q);
    if r.output.value.branch.Some? {
      TrimSpaceUnpads(p, r.output.value.branch.value, q);
    }
  }

  /** Validation and trimming agree: a repository whose strings are already
      trimmed validates exactly as the original does. */
  lemma ValidateTrimmedInvariant(r: SimpleRepo)
    requires r.input.Some? && r.output.Some?
    ensures
      var i, o := r.input.value, r.output.value;
      ValidateRepo(r.(input := Some(i.(url := TrimSpace(i.url))), output := Some(o.(url := TrimSpace(o.url))))) == ValidateRepo(r)
  {
    var i, o := r.input.value, r.output.value;
    TrimSpaceIdempotent(i.url);
    TrimSpaceIdempotent(o.url);
    TrimSpaceEmptyIff(i.url);
    TrimSpaceEmptyIff(TrimSpace(i.url));
  }
}
