/** What Bedrock lists: foundation models and inference profiles, which of them are used, and
    the foundation model a profile stands for. */
module BedrockEntries {
  import opened Basics
  import opened Whitespace

  datatype Modality = TextInput | ImageInput

  datatype Capabilities = Capabilities(reasoning: bool, input: seq<Modality>, contextWindow: nat, maxTokens: nat)

  datatype Model = Model(id: string, name: string, can: Capabilities)

  datatype Defaults = Defaults(contextWindow: nat, maxTokens: nat)

  datatype Summary = Summary(
    modelId: Option<string>,
    modelName: Option<string>,
    providerName: Option<string>,
    inputModalities: seq<string>,
    outputModalities: seq<string>,
    streaming: bool,
    status: Option<string>)

  /** `arns` holds the model ARN of each of the profile's models. */
  datatype Profile = Profile(
    id: Option<string>,
    name: Option<string>,
    kind: string,
    status: string,
    arns: seq<Option<string>>)

  /** Trimmed and in lower case. */
  function Norm(s: string): string {
    Lower(Trim(s))
  }

  /** `split(sep)[0]`. */
  function FirstPart(s: string, sep: char): string {
    if s == [] || s[0] == sep then [] else [s[0]] + FirstPart(s[1..], sep)
  }

  /** `split(sep)[1]`. */
  function SecondPart(s: string, sep: char): Option<string> {
    var first := FirstPart(s, sep);
    if |first| < |s| then Some(FirstPart(s[|first| + 1..], sep)) else None
  }

  predicate MatchesProvider(s: Summary, filter: seq<string>) {
    filter == [] ||
    (var name := if s.providerName.Some? then s.providerName
      else if s.modelId.Some? then Some(FirstPart(s.modelId.value, '.')) else None;
     name.Some? && Norm(name.value) != "" && Norm(name.value) in filter)
  }

  predicate Mentions(modalities: seq<string>, word: string) {
    exists i :: 0 <= i < |modalities| && Norm(modalities[i]) == word
  }

  predicate Included(s: Summary, filter: seq<string>) {
    && s.modelId.Some? && Trim(s.modelId.value) != ""
    && MatchesProvider(s, filter)
    && s.streaming
    && Mentions(s.outputModalities, "text")
    && s.status.Some? && Lower(s.status.value) == "active"
  }

  /** The known input modalities, each once, in order of first mention. */
  function KnownInputs(modalities: seq<string>): seq<Modality> {
    if modalities == [] then []
    else
      var known := KnownInputs(modalities[..|modalities| - 1]);
      var last := Norm(modalities[|modalities| - 1]);
      if last == "text" && TextInput !in known then known + [TextInput]
      else if last == "image" && ImageInput !in known then known + [ImageInput]
      else known
  }

  function Inputs(modalities: seq<string>): (r: seq<Modality>) {
    var known := KnownInputs(modalities);
    if known == [] then [TextInput] else known
  }

  /** A model accepts exactly the known modalities it lists, and text when it lists none. */
  lemma {:induction false} KnownInputsIff(modalities: seq<string>)
    ensures TextInput in KnownInputs(modalities) <==> Mentions(modalities, "text")
    ensures ImageInput in KnownInputs(modalities) <==> Mentions(modalities, "image")
    ensures Inputs(modalities) != [] && Distinct(Inputs(modalities))
  {
    if modalities != [] {
      var n := |modalities| - 1;
      KnownInputsIff(modalities[..n]);
      MentionsSnoc(modalities, "text");
      MentionsSnoc(modalities, "image");
      hide Mentions, Norm;
    }
  }

  lemma MentionsSnoc(modalities: seq<string>, word: string)
    requires modalities != []
    ensures var n := |modalities| - 1;
      Mentions(modalities, word) <==> Mentions(modalities[..n], word) || Norm(modalities[n]) == word
  {
    hide Norm;
    var n := |modalities| - 1;
    assert forall i :: 0 <= i < n ==> modalities[..n][i] == modalities[i];
  }

  /** A part of a split is what stands before the first separator, or all. */
  lemma {:induction false} FirstPartIs(s: string, sep: char)
    ensures FirstPart(s, sep) <= s && sep !in FirstPart(s, sep)
    ensures FirstPart(s, sep) == s || s[|FirstPart(s, sep)|] == sep
  {
    if s != [] && s[0] != sep {
      FirstPartIs(s[1..], sep);
      assert s == [s[0]] + s[1..];
    }
  }

  /** The provider a summary names, or the part of its id before the first dot. */
  function ProviderOf(s: Summary): string {
    if s.providerName.Some? then s.providerName.value
    else if s.modelId.Some? then FirstPart(s.modelId.value, '.') else ""
  }

  /** A model is used exactly when it has an id, comes from a wanted provider, streams, gives
      text and is active. */
  lemma IncludedIff(s: Summary, filter: seq<string>)
    ensures Included(s, filter) <==>
      && s.modelId.Some? && (exists i :: 0 <= i < |s.modelId.value| && !IsBlank(s.modelId.value[i]))
      && (filter == [] || (Norm(ProviderOf(s)) != "" && Norm(ProviderOf(s)) in filter))
      && s.streaming
      && (exists i :: 0 <= i < |s.outputModalities| && Norm(s.outputModalities[i]) == "text")
      && s.status.Some? && Lower(s.status.value) == "active"
  {
    if s.modelId.Some? {
      TrimEmptyIff(s.modelId.value);
    }
    hide Norm, Lower, Trim;
  }

  lemma TrimEmptyIff(s: string)
    ensures Trim(s) != "" <==> exists i :: 0 <= i < |s| && !IsBlank(s[i])
  {
    TrimBlankIff(s);
    assert AllBlank(s) <==> !exists i :: 0 <= i < |s| && !IsBlank(s[i]);
  }

  function OrEmpty(s: Option<string>): string {
    if s.Some? then s.value else ""
  }

  /** The trimmed name, or the id when there is none. */
  function NameOr(name: Option<string>, id: string): string {
    if Trim(OrEmpty(name)) != "" then Trim(OrEmpty(name)) else id
  }

  function ToModel(s: Summary, d: Defaults): Model {
    var id := Trim(OrEmpty(s.modelId));
    var haystack := Norm(OrEmpty(s.modelId) + " " + OrEmpty(s.modelName));
    Model(id, NameOr(s.modelName, id),
          Capabilities(Contains(haystack, "reasoning") || Contains(haystack, "thinking"),
                       Inputs(s.inputModalities), d.contextWindow, d.maxTokens))
  }

  /** The fields of a model: its trimmed id, its trimmed name or the id, whether its id or
      name speaks of reasoning or thinking, and the default limits. */
  lemma ModelFields(s: Summary, d: Defaults)
    requires s.modelId.Some?
    ensures var m := ToModel(s, d);
      var about := Norm(s.modelId.value + " " + if s.modelName.Some? then s.modelName.value else "");
      && m.id == Trim(s.modelId.value)
      && m.name == (if s.modelName.Some? && Trim(s.modelName.value) != "" then Trim(s.modelName.value) else m.id)
      && (m.can.reasoning <==> exists i :: 0 <= i <= |about| && ("reasoning" <= about[i..] || "thinking" <= about[i..]))
      && m.can.contextWindow == d.contextWindow && m.can.maxTokens == d.maxTokens
      && (ImageInput in m.can.input <==> Mentions(s.inputModalities, "image"))
      && (TextInput in m.can.input <==> Mentions(s.inputModalities, "text") || !Mentions(s.inputModalities, "image"))
  {
    var about := Norm(s.modelId.value + " " + OrEmpty(s.modelName));
    assert Trim("") == "";
    ContainsIff(about, "reasoning");
    ContainsIff(about, "thinking");
    KnownInputsIff(s.inputModalities);
    hide Contains, Norm, Trim, Mentions, KnownInputs;
    OnlyTwoInputs(KnownInputs(s.inputModalities));
  }

  lemma OnlyTwoInputs(known: seq<Modality>)
    ensures known != [] ==> TextInput in known || ImageInput in known
  {
    if known != [] {
      assert known[0] in known;
      match known[0] {
        case TextInput =>
        case ImageInput =>
      }
    }
  }

  // ---- profiles ----

  predicate ArnMatches(arn: Option<string>, filter: seq<string>) {
    arn.Some? &&
    (var part := SecondPart(arn.value, '/');
     part.Some? && FirstPart(part.value, '.') != "" && Norm(FirstPart(part.value, '.')) in filter)
  }

  predicate Usable(p: Profile, filter: seq<string>) {
    && p.id.Some? && Trim(p.id.value) != ""
    && p.status == "ACTIVE"
    && (filter == [] || exists i :: 0 <= i < |p.arns| && ArnMatches(p.arns[i], filter))
  }

  const ARN_MARK := "foundation-model/"

  const REGIONS: seq<string> := ["us", "eu", "ap", "jp", "global"]

  /** What `(.+)$` matches: something, and no line terminator. */
  predicate IsTail(s: string) {
    s != "" && '\n' !in s && '\r' !in s && '\U{2028}' !in s && '\U{2029}' !in s
  }

  /** What stands after the leftmost mark that such a tail follows. */
  function AfterMark(arn: string): Option<string> {
    if arn == "" then None
    else if ARN_MARK <= arn && IsTail(arn[|ARN_MARK|..]) then Some(arn[|ARN_MARK|..])
    else AfterMark(arn[1..])
  }

  predicate HasRegion(id: string, region: string) {
    |region| < |id| && Lower(id[..|region|]) == region && id[|region|] == '.' && IsTail(id[|region| + 1..])
  }

  function AfterRegion(id: string, regions: seq<string>): Option<string> {
    if regions == [] then None
    else if HasRegion(id, regions[0]) then Some(id[|regions[0]| + 1..])
    else AfterRegion(id, regions[1..])
  }

  /** The id of the foundation model a profile stands for. */
  function BaseId(p: Profile): Option<string> {
    var fromArn := if p.arns == [] then None else AfterMark(OrEmpty(p.arns[0]));
    if fromArn.Some? then fromArn
    else if p.kind == "SYSTEM_DEFINED" then AfterRegion(OrEmpty(p.id), REGIONS)
    else None
  }

  /** A profile is used exactly when it has an id, is active, and one of its models comes from
      a wanted provider. */
  lemma UsableIff(p: Profile, filter: seq<string>)
    ensures Usable(p, filter) <==>
      && p.id.Some? && (exists i :: 0 <= i < |p.id.value| && !IsBlank(p.id.value[i]))
      && p.status == "ACTIVE"
      && (filter == [] || exists i :: 0 <= i < |p.arns| && ArnMatches(p.arns[i], filter))
  {
    if p.id.Some? {
      TrimEmptyIff(p.id.value);
    }
    hide ArnMatches, Trim;
  }

  /** The second part of a split stands between the first two separators, or after the only
      one; without a separator there is none. */
  lemma SecondPartIs(head: string, part: string, rest: string, sep: char)
    requires sep !in head && sep !in part
    ensures SecondPart(head, sep) == None
    ensures SecondPart(head + [sep] + part, sep) == Some(part)
    ensures SecondPart(head + [sep] + (part + [sep] + rest), sep) == Some(part)
  {
    NoSep(head, sep);
    NoSep(part, sep);
    UniqueFirst(part, rest, sep);
    hide FirstPart;
    AfterFirst(head, part, sep);
    AfterFirst(head, part + [sep] + rest, sep);
  }

  lemma AfterFirst(head: string, tail: string, sep: char)
    requires sep !in head
    ensures SecondPart(head + [sep] + tail, sep) == Some(FirstPart(tail, sep))
  {
    UniqueFirst(head, tail, sep);
    hide FirstPart;
    assert (head + [sep] + tail)[|head| + 1..] == tail;
  }

  /** An ARN comes from a wanted provider exactly when its part between the first two slashes
      starts with one, up to a dot. */
  lemma ArnMatchesIff(head: string, part: string, rest: string, filter: seq<string>)
    requires '/' !in head && '/' !in part
    ensures ArnMatches(Some(head + "/" + part), filter) <==>
              FirstPart(part, '.') != "" && Norm(FirstPart(part, '.')) in filter
    ensures ArnMatches(Some(head + "/" + (part + "/" + rest)), filter) <==> ArnMatches(Some(head + "/" + part), filter)
    ensures !ArnMatches(None, filter) && !ArnMatches(Some(head), filter)
  {
    SecondPartIs(head, part, rest, '/');
    hide FirstPart, SecondPart, Norm;
  }

  lemma {:induction false} UniqueFirst(a: string, b: string, sep: char)
    requires sep !in a
    ensures FirstPart(a + [sep] + b, sep) == a
  {
    if a != [] {
      assert (a + [sep] + b)[1..] == a[1..] + [sep] + b;
      UniqueFirst(a[1..], b, sep);
    }
  }

  lemma NoSep(s: string, sep: char)
    requires sep !in s
    ensures FirstPart(s, sep) == s
  {
    FirstPartIs(s, sep);
  }

  /** Two regions before the first dot of one id are the same. */
  lemma OneRegion(id: string, r: string, r': string)
    requires '.' !in r && '.' !in r' && HasRegion(id, r) && HasRegion(id, r')
    ensures r == r'
  {
    if |r| < |r'| {
      DotInRegion(id, r, r');
    } else if |r'| < |r| {
      DotInRegion(id, r', r);
    }
  }

  lemma DotInRegion(id: string, r: string, r': string)
    requires |r| < |r'| && HasRegion(id, r) && HasRegion(id, r')
    ensures '.' in r'
  {
    assert id[..|r'|][|r|] == '.';
    assert Lower(id[..|r'|])[|r|] == '.';
  }

  lemma {:induction false} AfterRegionFinds(id: string, regions: seq<string>, k: nat)
    requires k < |regions| && HasRegion(id, regions[k])
    requires forall i :: 0 <= i < |regions| ==> '.' !in regions[i]
    ensures AfterRegion(id, regions) == Some(id[|regions[k]| + 1..])
  {
    if HasRegion(id, regions[0]) {
      OneRegion(id, regions[0], regions[k]);
    } else {
      AfterRegionFinds(id, regions[1..], k - 1);
    }
  }

  /** A system-defined profile under a region prefix, in any case, stands for the model named
      after the prefix. */
  lemma RegionPrefixNamesBase(p: Profile, region: string, base: string)
    requires p.kind == "SYSTEM_DEFINED" && (p.arns == [] || AfterMark(OrEmpty(p.arns[0])).None?)
    requires Lower(region) in ["us", "eu", "ap", "jp", "global"]
    requires p.id == Some(region + "." + base) && IsTail(base)
    ensures BaseId(p) == Some(base)
  {
    assert REGIONS[0] == "us" && REGIONS[1] == "eu" && REGIONS[2] == "ap";
    assert REGIONS[3] == "jp" && REGIONS[4] == "global";
    var k :| 0 <= k < |REGIONS| && Lower(region) == REGIONS[k];
    var id := region + "." + base;
    assert |region| == |REGIONS[k]|;
    assert id[..|region|] == region && id[|region|] == '.' && id[|region| + 1..] == base;
    RegionsHaveNoDot();
    AfterRegionFinds(id, REGIONS, k);
  }

  lemma RegionsHaveNoDot()
    ensures forall i :: 0 <= i < |REGIONS| ==> '.' !in REGIONS[i]
  {
  }

  /** An application profile stands for the model named at the end of its first model's ARN. */
  lemma {:induction false} ArnNamesBase(head: string, base: string)
    requires IsTail(base) && forall i :: 0 <= i < |head| ==> !(ARN_MARK <= head[i..] + (ARN_MARK + base))
    ensures AfterMark(head + (ARN_MARK + base)) == Some(base)
  {
    var arn := head + (ARN_MARK + base);
    if head == "" {
      assert arn == ARN_MARK + base && arn[|ARN_MARK|..] == base;
    } else {
      assert head[0..] + (ARN_MARK + base) == arn;
      assert arn[1..] == head[1..] + (ARN_MARK + base);
      forall i | 0 <= i < |head[1..]| ensures !(ARN_MARK <= head[1..][i..] + (ARN_MARK + base)) {
        assert head[1..][i..] == head[i + 1..];
      }
      ArnNamesBase(head[1..], base);
    }
  }

  /** Whatever base a profile is given stands at the end of its first ARN after the mark, or,
      for a system-defined profile, after a region and a dot in its id. */
  lemma BaseIdIsNamed(p: Profile)
    ensures BaseId(p).Some? ==> IsTail(BaseId(p).value)
    ensures BaseId(p).Some? ==>
      || (p.arns != [] && p.arns[0].Some? && EndsIn(p.arns[0].value, ARN_MARK + BaseId(p).value))
      || (p.kind == "SYSTEM_DEFINED" && p.id.Some? && AfterARegion(p.id.value, BaseId(p).value))
  {
    if p.arns != [] {
      AfterMarkEnds(OrEmpty(p.arns[0]));
    }
    AfterRegionIs(OrEmpty(p.id), REGIONS);
    hide AfterMark, AfterRegion, IsTail;
  }

  predicate EndsIn(s: string, tail: string) {
    |tail| <= |s| && s[|s| - |tail|..] == tail
  }

  ghost predicate AfterARegion(id: string, base: string) {
    exists k :: 0 <= k < |REGIONS| && HasRegion(id, REGIONS[k]) && id[|REGIONS[k]| + 1..] == base
  }

  lemma {:induction false} AfterMarkEnds(arn: string)
    ensures AfterMark(arn).Some? ==>
      arn != "" && IsTail(AfterMark(arn).value) && EndsIn(arn, ARN_MARK + AfterMark(arn).value)
  {
    if arn != "" {
      if ARN_MARK <= arn && IsTail(arn[|ARN_MARK|..]) {
        assert arn == ARN_MARK + arn[|ARN_MARK|..];
      } else {
        AfterMarkEnds(arn[1..]);
        if AfterMark(arn[1..]).Some? {
          var tail := ARN_MARK + AfterMark(arn[1..]).value;
          assert arn[|arn| - |tail|..] == arn[1..][|arn| - 1 - |tail|..];
        }
      }
    }
  }

  lemma {:induction false} AfterRegionIs(id: string, regions: seq<string>)
    ensures AfterRegion(id, regions).Some? ==> id != "" && IsTail(AfterRegion(id, regions).value)
    ensures AfterRegion(id, regions).Some? ==>
      exists k :: 0 <= k < |regions| && HasRegion(id, regions[k])
           && id[|regions[k]| + 1..] == AfterRegion(id, regions).value
  {
    if regions != [] && !HasRegion(id, regions[0]) {
      AfterRegionIs(id, regions[1..]);
      if AfterRegion(id, regions[1..]).Some? {
        var k :| 0 <= k < |regions[1..]| && HasRegion(id, regions[1..][k])
          && id[|regions[1..][k]| + 1..] == AfterRegion(id, regions[1..]).value;
        assert regions[k + 1] == regions[1..][k];
      }
    }
  }
}
