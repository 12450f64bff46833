/** The command-line flow of bin/find.js: resolve the search descriptor from the
    flags, the optional input message and the local identity and git checkout,
    run the matcher, and emit the input record extended with the match. */
module Find {
  import opened Records
  import opened Matching

  /** The parsed command line: `--type`, `--author`, `--write-back` and the positional arguments `conf._`. */
  datatype Conf = Conf(contentType: Option<string>, author: Option<string>, writeBack: bool, args: seq<string>)

  /** Reading and parsing the input file: an error (unreadable, not JSON, `null`) or a document. */
  datatype ReadResult = Unreadable(reason: string) | Parsed(doc: Doc)

  /** What `gitInfo` reports about the checkout. */
  datatype GitInfo = GitInfo(repository: string, repositoryBranch: string)

  /** The joint result of `ssb.whoami` and `gitInfo`, gathered by one callback. */
  datatype Lookup = Looked(feedId: string, git: GitInfo) | LookupFailed(reason: string)

  /** The reasons the program stops with exit code 1. */
  datatype Error =
    | NeedTypeOrInput           // 'Either --type TYPE or MESSAGE.JSON is needed as input'
    | InputError(reason: string) // the file could not be read or parsed
    | NoValue                   // 'input message has no .value'
    | ContentMissing            // TypeError: reading `.type` of an absent `content`
    | TypeNotDefined            // 'type is not defined'
    | ServiceError(reason: string) // `ssb.whoami` or `gitInfo` failed
    | StreamFailure(reason: string) // the revision stream ended with an error
    | MatchMissing              // TypeError: reading `.key` of the absent match

  datatype Result<T> = Ok(value: T) | Err(error: Error)

  /** How a run ends: an error, the output record printed, or written back to a file. */
  datatype Exit = Fail(error: Error) | Printed(out: Doc) | WroteBack(path: string, out: Doc)

  // ---------------------------------------------------------------------------
  // Lineage root

  /** `revisionRoot(kv)`: `kv.value.content.revisionRoot || kv.key`. */
  function RevisionRoot(kv: Msg): (r: string)
    ensures Truthy(Field(kv.value.content, "revisionRoot")) ==> r == kv.value.content["revisionRoot"]
    ensures !Truthy(Field(kv.value.content, "revisionRoot")) ==> r == kv.key
    ensures kv.key != "" ==> r != ""
  {
    Or(Field(kv.value.content, "revisionRoot"), Some(kv.key)).value
  }

  /** The lineage root with nullish fallback (`revisionRoot ?? key`): a record
      without a `revisionRoot` field is its own root. Kept as a reference for `RevisionRoot`. */
  function LineageRoot(kv: Msg): string
  {
    if "revisionRoot" in kv.value.content then kv.value.content["revisionRoot"] else kv.key
  }

  /** `||` and `??` disagree only on a record whose `revisionRoot` is the empty
      string: `revisionRoot` then falls back to the key. */
  lemma RevisionRootAgreesWithLineageRoot(kv: Msg)
    ensures RevisionRoot(kv) == LineageRoot(kv) <==>
      (Field(kv.value.content, "revisionRoot") != Some("") || kv.key == "")
    ensures Field(kv.value.content, "revisionRoot") == Some("") ==> RevisionRoot(kv) == kv.key
  {
  }

  // ---------------------------------------------------------------------------
  // Resolving the search descriptor

  /** Lines 38-48: with no positional argument the input is `{}`; otherwise the
      first argument is read; a document with a `.value` is accepted as it is,
      one without is rejected. */
  function LoadInput(args: seq<string>, readFile: string -> ReadResult): (r: Result<Doc>)
    ensures |args| == 0 ==> r == Ok(EmptyDoc)
    ensures |args| > 0 && readFile(args[0]).Unreadable? ==> r == Err(InputError(readFile(args[0]).reason))
    ensures |args| > 0 && readFile(args[0]).Parsed? && readFile(args[0]).doc.value.None? ==> r == Err(NoValue)
    ensures |args| > 0 && readFile(args[0]).Parsed? && readFile(args[0]).doc.value.Some? ==>
      r == Ok(readFile(args[0]).doc)
    ensures |args| > 0 && r.Ok? ==> readFile(args[0]) == Parsed(r.value) && r.value.value.Some?
  {
    if |args| == 0 then Ok(EmptyDoc)
    else match readFile(args[0])
      case Unreadable(reason) => Err(InputError(reason))
      case Parsed(doc) => if doc.value.None? then Err(NoValue) else Ok(doc)
  }

  /** Lines 49-52: `conf.type || (inputKv.value && inputKv.value.content.type)`,
      and a falsy type is an error. */
  function ResolveType(confType: Option<string>, doc: Doc): (r: Result<string>)
    ensures Truthy(confType) ==> r == Ok(confType.value)
    ensures r.Ok? ==> r.value != ""
    ensures r.Ok? && !Truthy(confType) ==>
      doc.value.Some? && doc.value.value.content.Some? &&
      Field(doc.value.value.content.value, "type") == Some(r.value)
    ensures !Truthy(confType) && doc.value.Some? && doc.value.value.content.None? ==> r == Err(ContentMissing)
    ensures r.Err? && !Truthy(confType) && !(doc.value.Some? && doc.value.value.content.None?) ==>
      r == Err(TypeNotDefined) &&
      (doc.value.None? || !Truthy(Field(doc.value.value.content.value, "type")))
    ensures r.Err? ==> !Truthy(confType)
  {
    if Truthy(confType) then Ok(confType.value)
    else if doc.value.None? then Err(TypeNotDefined)
    else if doc.value.value.content.None? then Err(ContentMissing)
    else
      var t := Field(doc.value.value.content.value, "type");
      if Truthy(t) then Ok(t.value) else Err(TypeNotDefined)
  }

  /** The input document's `value.author`, `undefined` when there is no `value`. */
  function DocAuthor(doc: Doc): Option<string>
  {
    if doc.value.Some? then doc.value.value.author else None
  }

  /** Lines 54 and 65: `conf.author || inputKv.value.author || feed.id`. */
  function ResolveAuthor(confAuthor: Option<string>, doc: Doc, feedId: string): (r: string)
    ensures Truthy(confAuthor) ==> r == confAuthor.value
    ensures !Truthy(confAuthor) && Truthy(DocAuthor(doc)) ==> r == DocAuthor(doc).value
    ensures !Truthy(confAuthor) && !Truthy(DocAuthor(doc)) ==> r == feedId
  {
    Or(Or(confAuthor, DocAuthor(doc)), Some(feedId)).value
  }

  /** Lines 69-78: the descriptor has the resolved author and type, and repository
      and branch taken from the checkout, never from the input document. */
  function Search(author: string, contentType: string, git: GitInfo): SearchKv
  {
    SearchKv(author, contentType, git.repository, git.repositoryBranch)
  }

  // ---------------------------------------------------------------------------
  // Output record

  /** The `content` of `searchKv`. */
  function SearchContent(s: SearchKv): Content
  {
    map["type" := s.contentType, "repository" := s.repository, "repositoryBranch" := s.repositoryBranch]
  }

  /** The `content` of the third object given to `merge`. */
  function MatchContent(kv: Msg): Content
  {
    map["revisionBranch" := kv.key, "revisionRoot" := RevisionRoot(kv)]
  }

  /** The content fields the output sets whatever the input holds. */
  predicate Overridden(name: string)
  {
    name == "type" || name == "repository" || name == "repositoryBranch"
    || name == "revisionBranch" || name == "revisionRoot"
  }

  /** The input's `value.content`, `{}` when absent. */
  function InputContent(doc: Doc): Content
  {
    if doc.value.Some? && doc.value.value.content.Some? then doc.value.value.content.value else map[]
  }

  /** The merged `content`: input, then `searchKv`, then the match fields. */
  function MergedContent(doc: Doc, s: SearchKv, kv: Msg): Content
  {
    InputContent(doc) + SearchContent(s) + MatchContent(kv)
  }

  /** Lines 81-88: `merge(inputKv, searchKv, {value: {content: {revisionBranch, revisionRoot}}})`
      for these fixed shapes: the match fields override the descriptor's, which
      override the input's; every field neither sets keeps the input's value. */
  function Assemble(doc: Doc, s: SearchKv, kv: Msg): (out: Doc)
    ensures out.key == doc.key && out.others == doc.others
    ensures out.value.Some? && out.value.value.author == Some(s.author)
    ensures out.value.value.others == if doc.value.Some? then doc.value.value.others else map[]
    ensures out.value.value.content.Some?
    ensures var c := out.value.value.content.value;
      && Field(c, "revisionBranch") == Some(kv.key)
      && Field(c, "revisionRoot") == Some(RevisionRoot(kv))
      && Field(c, "type") == Some(s.contentType)
      && Field(c, "repository") == Some(s.repository)
      && Field(c, "repositoryBranch") == Some(s.repositoryBranch)
    ensures forall name :: !Overridden(name) ==>
      Field(out.value.value.content.value, name) == Field(InputContent(doc), name)
  {
    MergedContentFields(doc, s, kv);
    var others := if doc.value.Some? then doc.value.value.others else map[];
    Doc(doc.key, Some(DocValue(Some(s.author), Some(MergedContent(doc, s, kv)), others)), doc.others)
  }

  /** The fields of the merged content. */
  lemma MergedContentFields(doc: Doc, s: SearchKv, kv: Msg)
    ensures var c := MergedContent(doc, s, kv);
      && Field(c, "revisionBranch") == Some(kv.key)
      && Field(c, "revisionRoot") == Some(RevisionRoot(kv))
      && Field(c, "type") == Some(s.contentType)
      && Field(c, "repository") == Some(s.repository)
      && Field(c, "repositoryBranch") == Some(s.repositoryBranch)
    ensures forall name :: !Overridden(name) ==>
      Field(MergedContent(doc, s, kv), name) == Field(InputContent(doc), name)
  {
  }

  /** Lines 89-93: write back only when `--write-back` is set and an input file
      name (truthy) was given; print otherwise. */
  function Deliver(conf: Conf, out: Doc): (e: Exit)
    ensures !e.Fail? && e.out == out
    ensures e.WroteBack? <==> conf.writeBack && |conf.args| > 0 && conf.args[0] != ""
    ensures e.WroteBack? ==> e.path == conf.args[0]
  {
    if conf.writeBack && |conf.args| > 0 && conf.args[0] != "" then WroteBack(conf.args[0], out)
    else Printed(out)
  }

  // ---------------------------------------------------------------------------
  // The program

  /** One run of the program. The file system, the identity service, git and
      the revision store are the parameters `readFile`, `lookup` and `messagesByType`. */
  method Run(conf: Conf, readFile: string -> ReadResult, lookup: Lookup, messagesByType: string -> Stream)
    returns (r: Exit)
    ensures !Truthy(conf.contentType) && |conf.args| == 0 ==> r == Fail(NeedTypeOrInput)
    ensures Truthy(conf.contentType) || |conf.args| > 0 ==>
      match LoadInput(conf.args, readFile)
      case Err(e) => r == Fail(e)
      case Ok(doc) =>
        match ResolveType(conf.contentType, doc)
        case Err(e) => r == Fail(e)
        case Ok(t) =>
          match lookup
          case LookupFailed(reason) => r == Fail(ServiceError(reason))
          case Looked(feedId, git) =>
            var search := Search(ResolveAuthor(conf.author, doc, feedId), t, git);
            var stream := messagesByType(t);
            if stream.end.Failed? then r == Fail(StreamFailure(stream.end.reason))
            else match FindMessage(Values(stream.elements), search)
              case None => r == Fail(MatchMissing)
              case Some(kv) => r == Deliver(conf, Assemble(doc, search, kv))
  {
    if !Truthy(conf.contentType) && |conf.args| < 1 {
      return Fail(NeedTypeOrInput);
    }

    var inputFile: Option<string> := None;
    var inputKv := EmptyDoc;
    if |conf.args| > 0 {
      inputFile := Some(conf.args[0]);
      match readFile(conf.args[0])
      case Unreadable(reason) =>
        return Fail(InputError(reason));
      case Parsed(doc) =>
        if doc.value.None? {
          return Fail(NoValue);
        }
        inputKv := doc;
    }

    var contentType := ResolveType(conf.contentType, inputKv);
    if contentType.Err? {
      return Fail(contentType.error);
    }

    var author := Or(conf.author, DocAuthor(inputKv));

    match lookup
    case LookupFailed(reason) =>
      return Fail(ServiceError(reason));
    case Looked(feedId, git) =>
      author := Or(author, Some(feedId));
      var searchKv := SearchKv(author.value, contentType.value, git.repository, git.repositoryBranch);
      var found := FindMatching(searchKv, messagesByType);
      match found
      case StreamError(reason) =>
        return Fail(StreamFailure(reason));
      case Completed(None) =>
        return Fail(MatchMissing);
      case Completed(Some(kv)) =>
        var outputKv := Assemble(inputKv, searchKv, kv);
        if conf.writeBack && inputFile.Some? && inputFile.value != "" {
          r := WroteBack(inputFile.value, outputKv);
        } else {
          r := Printed(outputKv);
        }
  }

  /** Whatever the input file holds under `repository` and `repositoryBranch`,
      a written or printed record carries the checkout's values. */
  lemma OutputRepositoryIsFromGit(doc: Doc, author: string, t: string, git: GitInfo, kv: Msg)
    ensures var out := Assemble(doc, Search(author, t, git), kv);
      && Field(out.value.value.content.value, "repository") == Some(git.repository)
      && Field(out.value.value.content.value, "repositoryBranch") == Some(git.repositoryBranch)
  {
  }
}
