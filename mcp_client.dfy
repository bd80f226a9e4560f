/**
 * The image-path resolution of `DockerMCPSDKClient.call_diagram_server`
 * (agents/docker_mcp_sdk_client.py): where the PNG the diagram server drew is
 * found on the host, and the Draw.io conversion run on that path.
 *
 * The MCP session is not modelled: its outcome is an input, `ToolReply`, with
 * the JSON reading of the reply's text already done (`ParseOutcome`).
 * `os.path.normpath` is an uninterpreted parameter, and `os.path.abspath(p)`
 * is `normpath(join(cwd, p))` with the working directory `cwd` a parameter.
 */
module McpClient {
  import opened Wrappers
  import opened Strings
  import opened FileSystems
  import opened DrawioConverter

  /**
   * What `json.loads(result_text)["path"]` gives: `Parsed(Some(p))` for a
   * string `p`; `Parsed(None)` when there is no `path` key; `Unparseable`
   * when the text is not JSON or the value cannot be searched and split as a
   * string (every such error is caught by the bare `except`).
   */
  datatype ParseOutcome = Unparseable | Parsed(path: Option<string>)

  /** The first content item of a tool result (its `text`, read as JSON), or no content at all (with `str(result)`). */
  datatype ToolContent =
    | NoContent(resultString: string)
    | Content(text: string, parsed: ParseOutcome)

  /** The `generate_diagram` call (or the session setup before it) either raises or returns a result. */
  datatype ToolReply = Raised(error: string) | Returned(content: ToolContent)

  /** The record `call_diagram_server` returns. */
  datatype ServerResult =
    | ServerSuccess(result: string, imagePath: string, drawioResult: ConvertResult)
    | ServerFailure(error: string)

  /** Container paths under this directory are mapped to the host's output directory. */
  const WorkspaceMarker: string := "/workspace/generated-diagrams/"

  /** The default workspace, relative to the working directory. */
  const DefaultWorkspace: string := "outputs/diagrams/generated-diagrams"

  /** `posixpath.join(a, b)`: an absolute `b` replaces `a`; otherwise `/` is inserted unless `a` is empty or ends with one. */
  function PathJoin(a: string, b: string): string
  {
    if |b| > 0 && b[0] == '/' then b
    else if a == [] || a[|a| - 1] == '/' then a + b
    else a + "/" + b
  }

  /** `path.split('/')[-1]`. */
  function LastSegment(path: string): string
  {
    Last(Split(path, "/"))
  }

  /** `workspace_dir`, or `os.path.abspath("outputs/diagrams/generated-diagrams")` when it is falsy. */
  function EffectiveWorkspace(workspaceDir: Option<string>, cwd: string, normpath: string -> string): (r: string)
    ensures workspaceDir.None? || workspaceDir.value == "" ==> r == normpath(PathJoin(cwd, DefaultWorkspace))
    ensures workspaceDir.Some? && workspaceDir.value != "" ==> r == workspaceDir.value
  {
    if workspaceDir.None? || workspaceDir.value == "" then normpath(PathJoin(cwd, DefaultWorkspace))
    else workspaceDir.value
  }

  /** `os.path.join(workspace_dir, f"{filename}.png")`. */
  function FallbackPath(workspace: string, filename: string): string
  {
    PathJoin(workspace, filename + ".png")
  }

  /** The host path chosen from a parsed reply, before normalisation. */
  function ContentPath(parsed: ParseOutcome, workspace: string, filename: string): string
  {
    match parsed
    case Parsed(Some(containerPath)) =>
      if Contains(containerPath, WorkspaceMarker) then
        PathJoin(PathJoin(PathJoin("outputs", "diagrams"), "generated-diagrams"), LastSegment(containerPath))
      else
        FallbackPath(workspace, filename)
    case _ => FallbackPath(workspace, filename)
  }

  /** The image path returned: normalised when the result has content, as joined when it has none. */
  function ImagePath(content: ToolContent, workspace: string, filename: string, normpath: string -> string): string
  {
    match content
    case Content(_, parsed) => normpath(ContentPath(parsed, workspace, filename))
    case NoContent(_) => FallbackPath(workspace, filename)
  }

  /** The `result` field: the content's text, or `str(result)` without content. */
  function ResultText(content: ToolContent): string
  {
    match content
    case Content(text, _) => text
    case NoContent(s) => s
  }

  /**
   * `call_diagram_server(diagram_code, filename, workspace_dir)`: a raised
   * call is reported as a failure; a returned one runs the converter on the
   * resolved path with `filename` as the diagram name. The result is then a
   * success naming that path, unless closing the session raises
   * (`closeFault`): that exception is reported as the failure, while the
   * converter's write has already happened.
   */
  method CallDiagramServer(fs: FileSystem, diagramCode: string, filename: string, workspaceDir: Option<string>,
                           cwd: string, normpath: string -> string, reply: ToolReply,
                           writeFault: Option<string>, closeFault: Option<string>)
    returns (r: ServerResult)
    requires fs.Valid()
    modifies fs
    ensures fs.Valid()
    ensures reply.Raised? ==> r == ServerFailure(reply.error) && unchanged(fs)
    ensures reply.Returned? && closeFault.None? ==>
      r.ServerSuccess?
      && r.result == ResultText(reply.content)
      && r.imagePath == ImagePath(reply.content, EffectiveWorkspace(workspaceDir, cwd, normpath), filename, normpath)
      && ConvertEffect(old(fs.existing), old(fs.contents), fs.existing, fs.contents,
                       r.imagePath, filename, writeFault, r.drawioResult)
    ensures reply.Returned? && closeFault.Some? ==>
      r == ServerFailure(closeFault.value)
      && exists d :: ConvertEffect(old(fs.existing), old(fs.contents), fs.existing, fs.contents,
                                   ImagePath(reply.content, EffectiveWorkspace(workspaceDir, cwd, normpath), filename, normpath),
                                   filename, writeFault, d)
  {
    var workspace := EffectiveWorkspace(workspaceDir, cwd, normpath);
    match reply
    case Raised(e) =>
      r := ServerFailure(e);
    case Returned(content) =>
      var actualPath := ImagePath(content, workspace, filename, normpath);
      var drawioResult := ConvertToDrawio(fs, actualPath, filename, Some(diagramCode), writeFault);
      if closeFault.Some? {
        r := ServerFailure(closeFault.value);
      } else {
        r := ServerSuccess(ResultText(content), actualPath, drawioResult);
      }
  }

  /** The file name taken from a container path holds no `/` and is what follows the path's last `/`. */
  lemma LastSegmentShape(path: string)
    ensures !Contains(LastSegment(path), "/")
    ensures |LastSegment(path)| <= |path| && path[|path| - |LastSegment(path)|..] == LastSegment(path)
    ensures Contains(path, "/") ==> path[|path| - |LastSegment(path)| - 1] == '/'
  {
    var parts := Split(path, "/");
    SplitPiecesFree(path, "/");
    assert !Contains(parts[|parts| - 1], "/");
    SplitLast(path, "/");
  }

  /** Joining the output directory's three names and a segment without `/` puts one `/` between each. */
  lemma GeneratedDiagramsJoin(segment: string)
    requires !Contains(segment, "/")
    ensures PathJoin(PathJoin(PathJoin("outputs", "diagrams"), "generated-diagrams"), segment)
         == DefaultWorkspace + "/" + segment
  {
    if |segment| > 0 {
      assert !OccursAt(segment, "/", 0);
      assert segment[0..1] == [segment[0]];
    }
    OutputDirectoryJoined();
    PathJoinPlain(DefaultWorkspace, segment);
  }

  /** `os.path.join("outputs", "diagrams", "generated-diagrams")` is the default workspace. */
  lemma OutputDirectoryJoined()
    ensures PathJoin(PathJoin("outputs", "diagrams"), "generated-diagrams") == DefaultWorkspace
  {
    var outputs := "outputs";
    var diagrams := "diagrams";
    var generated := "generated-diagrams";
    PathJoinPlain(outputs, diagrams);
    PathJoinPlain(outputs + "/" + diagrams, generated);
    assert outputs + "/" + diagrams + "/" + generated == DefaultWorkspace;
  }

  /** Two relative names are joined with one `/` when the first does not already end with one. */
  lemma PathJoinPlain(a: string, b: string)
    requires |a| > 0 && a[|a| - 1] != '/'
    requires |b| == 0 || b[0] != '/'
    ensures PathJoin(a, b) == a + "/" + b
  {
  }

  /** A container path under the workspace marker maps to that file name in the host's output directory. */
  lemma ContainerPathMapped(containerPath: string, workspace: string, filename: string)
    requires Contains(containerPath, WorkspaceMarker)
    ensures ContentPath(Parsed(Some(containerPath)), workspace, filename)
         == "outputs/diagrams/generated-diagrams/" + LastSegment(containerPath)
  {
    LastSegmentShape(containerPath);
    GeneratedDiagramsJoin(LastSegment(containerPath));
  }

  /** Every other parsed reply (no marker, no `path` key, not parseable) falls back to the workspace. */
  lemma ContentFallback(parsed: ParseOutcome, workspace: string, filename: string)
    requires !(parsed.Parsed? && parsed.path.Some? && Contains(parsed.path.value, WorkspaceMarker))
    ensures ContentPath(parsed, workspace, filename) == FallbackPath(workspace, filename)
  {
  }

  /** A result without content falls back to the workspace, and the path is not normalised. */
  lemma NoContentFallback(resultString: string, workspace: string, filename: string, normpath: string -> string)
    ensures ImagePath(NoContent(resultString), workspace, filename, normpath) == FallbackPath(workspace, filename)
    ensures ResultText(NoContent(resultString)) == resultString
  {
  }

  /** The fallback path is the file name with `.png` inside the workspace, `/`-separated. */
  lemma FallbackPathInWorkspace(workspace: string, filename: string)
    requires |workspace| > 0 && workspace[|workspace| - 1] != '/'
    requires |filename| == 0 || filename[0] != '/'
    ensures FallbackPath(workspace, filename) == workspace + "/" + filename + ".png"
  {
    PathJoinPlain(workspace, filename + ".png");
  }

  /** An absolute file name makes `os.path.join` drop the workspace. */
  lemma FallbackPathAbsoluteName(workspace: string, filename: string)
    requires |filename| > 0 && filename[0] == '/'
    ensures FallbackPath(workspace, filename) == filename + ".png"
  {
  }
}
