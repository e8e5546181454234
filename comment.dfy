/** The pull-request comment that lists the failed builds: one Markdown block
    per error, and the comment body around them. `path.relative('.', dir)` is
    an opaque function parameter, and the GitHub context is a value. */
module Comment {
  import opened Wrappers
  import opened Text
  import opened Build

  /** A failed build and what `kustomize` wrote to standard error. */
  datatype KustomizeError = KustomizeError(kustomization: Kustomization, stderr: string)

  /** The parts of `github.context` the comment uses. */
  datatype GithubContext = GithubContext(serverUrl: string, owner: string, repo: string, sha: string,
                                         pullRequest: Option<nat>)

  datatype CommentOptions = CommentOptions(header: string, footer: string)

  /** The arguments of `octokit.rest.issues.createComment`. */
  datatype CommentRequest = CommentRequest(owner: string, repo: string, issueNumber: nat, body: string)

  const KUSTOMIZATION_FILE := "kustomization.yaml"

  /** The link to the kustomization file at the commit under review:
      `serverUrl/owner/repo/blob/sha/directory/kustomization.yaml`. */
  function KustomizationUrl(ctx: GithubContext, directory: string): (url: string)
    ensures |url| > |ctx.serverUrl| + |KUSTOMIZATION_FILE|
    ensures url[..|ctx.serverUrl|] == ctx.serverUrl
    ensures url[|url| - |KUSTOMIZATION_FILE| - 1..] == "/" + KUSTOMIZATION_FILE
  {
    var segments := [ctx.serverUrl, ctx.owner, ctx.repo, "blob", ctx.sha, directory];
    JoinAppend(segments, [KUSTOMIZATION_FILE], "/");
    JoinCons(ctx.serverUrl, segments[1..], "/");
    assert segments == [ctx.serverUrl] + segments[1..];
    Join(segments + [KUSTOMIZATION_FILE], "/")
  }

  /** The console section of a block: the trimmed standard error with a line
      break after every colon. */
  function ConsoleText(stderr: string): string {
    ReplaceAll(Trim(stderr), ':', ":\n")
  }

  /** Removes the line break that directly follows each colon. */
  function UndoColonBreaks(s: string): string {
    if s == [] then ""
    else if |s| >= 2 && s[0] == ':' && s[1] == '\n' then ":" + UndoColonBreaks(s[2..])
    else [s[0]] + UndoColonBreaks(s[1..])
  }

  /** The lines of the markdown block for one error: it opens with a line
      break, then come the heading, the link, the fenced console section
      holding the command and its error output, and a final line break. */
  function TemplateLines(dir: string, url: string, console: string): seq<string> {
    ["", "### " + dir, "[kustomization.yaml](" + url + ") error:", "```console", "$ kustomize build " + dir,
     console, "```", ""]
  }

  /** The markdown block for one error. */
  function ErrorTemplate(e: KustomizeError, ctx: GithubContext, relative: string -> string): string {
    var relativeDir := relative(e.kustomization.kustomizationDir);
    Join(TemplateLines(relativeDir, KustomizationUrl(ctx, relativeDir), ConsoleText(e.stderr)), "\n")
  }

  /** `errors.map(errorTemplate)`. */
  function FormatErrors(errors: seq<KustomizeError>, ctx: GithubContext, relative: string -> string): (blocks: seq<string>)
    ensures |blocks| == |errors|
    ensures forall i | 0 <= i < |errors| :: blocks[i] == ErrorTemplate(errors[i], ctx, relative)
  {
    if errors == [] then [] else [ErrorTemplate(errors[0], ctx, relative)] + FormatErrors(errors[1..], ctx, relative)
  }

  /** `commentErrors`: nothing when the event is not a pull request, else a
      comment on it whose body is the header, the body and the footer on
      separate lines. */
  function CommentErrors(ctx: GithubContext, body: string, o: CommentOptions): (request: Option<CommentRequest>)
    ensures request.None? <==> ctx.pullRequest.None?
    ensures request.Some? ==> request.value.owner == ctx.owner && request.value.repo == ctx.repo
                              && request.value.issueNumber == ctx.pullRequest.value
  {
    match ctx.pullRequest
    case None => None
    case Some(number) => Some(CommentRequest(ctx.owner, ctx.repo, number, Join([o.header, body, o.footer], "\n")))
  }

  // ---------------------------------------------------------------------------
  // Properties
  // ---------------------------------------------------------------------------

  /** Breaking the line after every colon loses nothing: the trimmed standard
      error can be read back from the console section. */
  lemma {:induction false} ColonBreaksUndone(t: string)
    ensures UndoColonBreaks(ReplaceAll(t, ':', ":\n")) == t
  {
    if t != [] {
      var rest := ReplaceAll(t[1..], ':', ":\n");
      ColonBreaksUndone(t[1..]);
      if t[0] == ':' {
        var r := ":\n" + rest;
        assert r[2..] == rest;
      } else {
        var r := [t[0]] + rest;
        assert r[1..] == rest;
      }
      assert t == [t[0]] + t[1..];
    }
  }

  lemma ConsoleTextInverse(stderr: string)
    ensures UndoColonBreaks(ConsoleText(stderr)) == Trim(stderr)
  {
    ColonBreaksUndone(Trim(stderr));
  }

  /** Every colon of `s` ends its line. */
  predicate ColonsEndLines(s: string) {
    forall i | 0 <= i < |s| && s[i] == ':' :: i + 1 < |s| && s[i + 1] == '\n'
  }

  lemma {:induction false} ReplaceBreaksAfterColons(t: string)
    ensures ColonsEndLines(ReplaceAll(t, ':', ":\n"))
  {
    if t != [] {
      ReplaceBreaksAfterColons(t[1..]);
      var rest := ReplaceAll(t[1..], ':', ":\n");
      var head := if t[0] == ':' then ":\n" else [t[0]];
      var r := head + rest;
      assert ReplaceAll(t, ':', ":\n") == r;
      forall i | 0 <= i < |r| && r[i] == ':' ensures i + 1 < |r| && r[i + 1] == '\n' {
        if i < |head| {
          assert t[0] == ':' && i == 0;
        } else {
          assert rest[i - |head|] == r[i];
          assert i + 1 < |r| && r[i + 1] == rest[i + 1 - |head|];
        }
      }
    }
  }

  /** Every colon of the console section ends its line. */
  lemma ConsoleColonsEndLines(stderr: string)
    ensures ColonsEndLines(ConsoleText(stderr))
  {
    ReplaceBreaksAfterColons(Trim(stderr));
  }

  /** The fixed segments of the link hold no `/`: the fact `UrlSegments`
      passes to `SplitJoinedSegments`, kept apart so that the literals are
      unfolded only here. */
  lemma NoSlashInFixedSegments(blob: string, file: string)
    requires blob == "blob" && file == KUSTOMIZATION_FILE
    ensures '/' !in blob && '/' !in file
  {
  }

  /** The path segments of the link: those of the server address, the owner,
      the repository, `blob`, the commit, those of the directory, and the file
      name. */
  lemma UrlSegments(ctx: GithubContext, directory: string)
    requires '/' !in ctx.owner && '/' !in ctx.repo && '/' !in ctx.sha
    ensures Split(KustomizationUrl(ctx, directory), '/')
            == Split(ctx.serverUrl, '/') + [ctx.owner, ctx.repo, "blob", ctx.sha] + Split(directory, '/') + [KUSTOMIZATION_FILE]
  {
    var blob, file := "blob", KUSTOMIZATION_FILE;
    NoSlashInFixedSegments(blob, file);
    var middle := [ctx.owner, ctx.repo, blob, ctx.sha];
    assert [ctx.serverUrl, ctx.owner, ctx.repo, blob, ctx.sha, directory] + [file] == [ctx.serverUrl] + middle + [directory] + [file];
    SplitJoinedSegments(ctx.serverUrl, middle, directory, file, '/');
  }

  /** Splitting `first/m1/.../mk/last/name` where the middle segments and the
      name hold no separator: the separators inside `first` and `last` split
      them as well. */
  lemma SplitJoinedSegments(first: string, middle: seq<string>, last: string, name: string, sep: char)
    requires forall k | 0 <= k < |middle| :: sep !in middle[k]
    requires sep !in name
    ensures Split(Join([first] + middle + [last] + [name], [sep]), sep)
            == Split(first, sep) + middle + Split(last, sep) + [name]
  {
    var parts := [first] + middle + [last] + [name];
    SplitOfJoin(parts, sep);
    SplitEachAppend([first] + middle + [last], [name], sep);
    SplitEachAppend([first] + middle, [last], sep);
    SplitEachAppend([first], middle, sep);
    SplitEachOne(first, sep);
    SplitEachOne(last, sep);
    SplitEachFree(middle, sep);
    SplitEachFree([name], sep);
  }

  /** The fixed texts of the block template hold no line break: the fact
      `BlockLines` needs to split the block into its lines, kept apart so that
      the literals are unfolded only here. */
  lemma NoNewlineInFixedLines(fence: string, open: string, heading: string, command: string, linkStart: string, linkEnd: string)
    requires fence == "```" && open == "```console" && heading == "### " && command == "$ kustomize build "
    requires linkStart == "[kustomization.yaml](" && linkEnd == ") error:"
    ensures '\n' !in fence && '\n' !in open && '\n' !in heading && '\n' !in command
    ensures '\n' !in linkStart && '\n' !in linkEnd
  {
  }

  /** The lines of a block are its template lines, the console section
      contributing one line per line of it: the heading and the command name
      the same relative directory, and the block both starts and ends with a
      line break. */
  lemma BlockLines(e: KustomizeError, ctx: GithubContext, relative: string -> string)
    requires '\n' !in relative(e.kustomization.kustomizationDir)
    requires '\n' !in KustomizationUrl(ctx, relative(e.kustomization.kustomizationDir))
    ensures var dir := relative(e.kustomization.kustomizationDir);
            Split(ErrorTemplate(e, ctx, relative), '\n')
            == ["", "### " + dir, "[kustomization.yaml](" + KustomizationUrl(ctx, dir) + ") error:",
                "```console", "$ kustomize build " + dir]
               + Split(ConsoleText(e.stderr), '\n') + ["```", ""]
  {
    var dir := relative(e.kustomization.kustomizationDir);
    var url := KustomizationUrl(ctx, dir);
    var console := ConsoleText(e.stderr);
    var fence, open, heading, command, linkStart, linkEnd := "```", "```console", "### ", "$ kustomize build ", "[kustomization.yaml](", ") error:";
    NoNewlineInFixedLines(fence, open, heading, command, linkStart, linkEnd);
    var before := ["", heading + dir, linkStart + url + linkEnd, open, command + dir];
    var after := [fence, ""];
    var lines := TemplateLines(dir, url, console);
    assert lines == before + [console] + after;
    assert forall k | 0 <= k < |before| :: '\n' !in before[k];
    SplitJoinedAround(before, console, after, '\n');
  }

  /** Splitting parts joined by a separator when only one of them may hold it:
      that one is split, the others come back whole. */
  lemma SplitJoinedAround(before: seq<string>, middle: string, after: seq<string>, sep: char)
    requires forall k | 0 <= k < |before| :: sep !in before[k]
    requires forall k | 0 <= k < |after| :: sep !in after[k]
    ensures Split(Join(before + [middle] + after, [sep]), sep) == before + Split(middle, sep) + after
  {
    SplitOfJoin(before + [middle] + after, sep);
    SplitEachAppend(before + [middle], after, sep);
    SplitEachAppend(before, [middle], sep);
    SplitEachOne(middle, sep);
    SplitEachFree(before, sep);
    SplitEachFree(after, sep);
  }

  /** The lines of the comment are the header, the lines of the body and the
      footer. */
  lemma CommentLines(ctx: GithubContext, body: string, o: CommentOptions)
    requires ctx.pullRequest.Some?
    requires '\n' !in o.header && '\n' !in o.footer
    ensures Split(CommentErrors(ctx, body, o).value.body, '\n') == [o.header] + Split(body, '\n') + [o.footer]
  {
    assert [o.header, body, o.footer] == [o.header] + [body] + [o.footer];
    SplitJoinedAround([o.header], body, [o.footer], '\n');
  }
}
