# mcp-diagram-generation: text and path logic, in Dafny

The application asks a hosted language model for diagram code. It runs that
code in a diagram server reached over MCP. Then, when the PNG the server drew
exists, it writes a Draw.io file at the PNG's path with every `.png` replaced
by `.drawio` (next to the PNG for an ordinary `name.png`). Three pieces of
deterministic logic sit inside that I/O, and this project models them and
proves their properties:

- **Fence extraction** (`FenceExtraction`). The model's reply may wrap the
  code in a Markdown fence. Either a ```` ```python ```` block or a bare
  ```` ``` ```` block is cut out and stripped.
- **The Draw.io converter** (`DrawioDocument`, `DrawioConverter`, `FileSystems`):
  - the fixed mxGraph document, whose only variable part is the diagram name;
  - the guard on the PNG file's existence;
  - the `.png` to `.drawio` path rewrite;
  - the single write of the document.

  The converter is a method over a `FileSystem` object. The object holds the
  set of existing paths and the contents of each file.
- **Image-path resolution** (`McpClient`). The MCP client maps the server's
  reply to the host path of the PNG, then runs the converter on that path.

Python's string operations are modelled in `Strings`: `in`, `find`, `split`,
`join`, `replace` and `strip`.

The converter's docstring promises a conversion "using Claude 4 Sonnet
analysis" (agents/drawio_converter.py:43). The method does no analysis: it
never reads `diagram_code` and writes a fixed template under the given name
(lines 45-61). The model follows the code.

## Model

| member | source | states |
|---|---|---|
| Strings.FindFirst | agents/bedrock_strands_agent.py:123-126 | `None` exactly when the separator does not occur (Python `in` is false); otherwise an occurrence with none before it |
| Strings.Contains | agents/bedrock_strands_agent.py:123-125 | Python's `sep in s`: some index where the separator occurs; `FindFirst` is `None` exactly when it fails |
| Strings.BeforeFirst | agents/bedrock_strands_agent.py:124 | a prefix of the text without the separator; the whole text exactly when the separator is absent; otherwise the cut is at the first occurrence, which follows it |
| Strings.AfterFirst | agents/bedrock_strands_agent.py:124 | the text is the part before the first separator, the separator, and this remainder |
| Strings.Split | agents/bedrock_strands_agent.py:124 | at least one piece; two or more exactly when the separator occurs, so `split(...)[1]` is in range under an `in` guard |
| Strings.SplitFirst | agents/bedrock_strands_agent.py:124 | `split(sep)[0]` is the text before the first separator |
| Strings.SplitSecond | agents/bedrock_strands_agent.py:124 | `split(sep)[1]` is the text between the first and the second separator |
| Strings.SplitLast | agents/docker_mcp_sdk_client.py:63 | `split(sep)[-1]` ends the text and follows an occurrence of the separator when there is one |
| Strings.SplitPiecesFree | agents/docker_mcp_sdk_client.py:63 | no piece of a split contains the separator |
| Strings.JoinSplit | agents/bedrock_strands_agent.py:124 | `sep.join(s.split(sep)) == s` |
| Strings.Join | agents/drawio_converter.py:53 | `sep.join(parts)`, the reference definition for `replace`; `JoinSplit` shows it undoes `Split` |
| Strings.ReplaceAll | agents/drawio_converter.py:53 | `s.replace(pat, rep)` as a left-to-right scan; `ReplaceAllIsJoinOfSplit` shows it is `rep.join(s.split(pat))` |
| Strings.ReplaceAllIsJoinOfSplit | agents/drawio_converter.py:53 | `s.replace(a, b) == b.join(s.split(a))`: every non-overlapping occurrence, left to right, is replaced |
| Strings.ReplaceAllAbsent | agents/drawio_converter.py:53 | replacing an absent pattern leaves the text as it is |
| Strings.TrimLeft | agents/bedrock_strands_agent.py:124 | a suffix that does not start with whitespace, and only whitespace is dropped |
| Strings.TrimRight | agents/bedrock_strands_agent.py:124 | a prefix that does not end with whitespace, and only whitespace is dropped |
| Strings.IsSpace | agents/bedrock_strands_agent.py:124 | the characters `str.isspace()` accepts, hence what `strip()` removes, listed code point by code point |
| Strings.Strip | agents/bedrock_strands_agent.py:124 | a slice of the text, between whitespace-only margins, neither starting nor ending with whitespace |
| Strings.StripUnchanged | agents/bedrock_strands_agent.py:124 | text that neither starts nor ends with whitespace is its own strip |
| Strings.StripKeepsAbsence | agents/bedrock_strands_agent.py:124 | stripping adds no occurrence of a separator |
| Strings.StripIdempotent | agents/bedrock_strands_agent.py:124 | stripping twice is stripping once |
| FenceExtraction.PythonFenceIsFence | agents/bedrock_strands_agent.py:123-125 | a text with a Python opening marker also has a bare fence, so the Python branch is the one that applies |
| FenceExtraction.ExtractCode | agents/bedrock_strands_agent.py:122-126 | the extraction as written; its results are stated by `ExtractCodePythonBranch`, `ExtractCodePythonBlock`, `ExtractCodeGenericBlock`, the unclosed and unfenced cases, `ExtractCodeFenceFree` and `ExtractCodeIdempotent` |
| FenceExtraction.ExtractCodeIntended | agents/bedrock_strands_agent.py:122-126 | the corrected extraction, the block body; `ExtractCodeIntendedTakesBody` gives it at explicit indices and `ExtractCodeAgreesWithIntended` says exactly where it departs from the written one |
| FenceExtraction.ExtractCodeUnfenced | agents/bedrock_strands_agent.py:122-126 | text without a fence is returned unchanged |
| FenceExtraction.ExtractCodePythonBranch | agents/bedrock_strands_agent.py:123-124 | with a Python opening marker, the result is the stripped text after it, cut at a second marker and then at the first fence |
| FenceExtraction.ExtractCodePythonBlock | agents/bedrock_strands_agent.py:123-124 | unless a second opening marker cuts through the first closing fence, the result is the stripped text between the first marker and the next fence; this covers replies with several Python blocks |
| FenceExtraction.RestCutKeepsBackticks | agents/bedrock_strands_agent.py:124 | when the closing fence starts one or two characters before a second marker, the written cut is the block body followed by those one or two backticks |
| FenceExtraction.CutFenceDiffers | agents/bedrock_strands_agent.py:124 | in that case the stripped written result differs from the stripped block body |
| Strings.StripAppend | agents/bedrock_strands_agent.py:124 | appending text without whitespace at either end keeps it whole in the strip, which gets longer |
| FenceExtraction.ExtractCodeGenericBlock | agents/bedrock_strands_agent.py:125-126 | with a bare fence and no Python marker, the result is the stripped text between the first two fences |
| FenceExtraction.ExtractCodeUnclosedPython | agents/bedrock_strands_agent.py:124 | an unclosed Python block gives the stripped remainder after the marker |
| FenceExtraction.ExtractCodeUnclosedGeneric | agents/bedrock_strands_agent.py:126 | an unclosed bare fence gives the stripped remainder after it |
| FenceExtraction.ExtractCodeFenceFree | agents/bedrock_strands_agent.py:123-126 | when a fence branch is taken, the result holds no fence and has no surrounding whitespace |
| FenceExtraction.ExtractCodeIdempotent | agents/bedrock_strands_agent.py:122-126 | extracting again from the result changes nothing |
| FenceExtraction.ExtractCodeAgreesWithIntended | agents/bedrock_strands_agent.py:123-126 | the written extraction and the block-body extraction agree exactly when the first closing fence after the opening marker does not start one or two characters before a second marker |
| FenceExtraction.ExtractCodeIntendedTakesBody | agents/bedrock_strands_agent.py:123-124 | the corrected extraction is exactly the stripped text between the first opening marker and the first fence after it |
| FenceExtraction.SecondOpeningKeepsBackticks | agents/bedrock_strands_agent.py:124 | on ```` ```pythonab`````python ```` the written extraction gives ```` ab`` ```` and the corrected one `ab` |
| DrawioDocument.RenderAroundName | agents/drawio_converter.py:19-40 | a rendered document is its diagram name between a fixed prefix and a text that depends on the cells only |
| DrawioDocument.Render | agents/drawio_converter.py:19-40 | the f-string's text, line by line and attribute by attribute; `RenderAroundName` states where the name goes |
| DrawioDocument.CreateWorkingDrawioXml | agents/drawio_converter.py:17-40 | the template's cells under the given name; `DiagramNameVerbatim`, `DiagramNameRoundTrip` and `DocumentDeterminesName` state what it produces |
| DrawioDocument.DiagramNameVerbatim | agents/drawio_converter.py:19-20 | the name is interpolated verbatim and unescaped as the value of `<diagram name="...">`; the rest of the document is constant |
| DrawioDocument.DiagramNameRoundTrip | agents/drawio_converter.py:17-40 | reading the name back out of the document gives the name written |
| DrawioDocument.DocumentDeterminesName | agents/drawio_converter.py:17-40 | two documents are equal exactly when their names are |
| DrawioDocument.TemplateWellFormed | agents/drawio_converter.py:23-31 | cells 0 to 4 with distinct ids and parents that come earlier: a root, a layer, two vertices and one edge, from vertex 2 to vertex 3 |
| DrawioDocument.TemplateEdgeRunsLeftToRight | agents/drawio_converter.py:25-31 | the Lambda shape lies wholly left of the S3 shape on the same row, as the edge style (leaving the right side, entering the left side) presumes |
| FileSystems.FileSystem.Exists | agents/drawio_converter.py:45 | true exactly when the path exists; every file written so far exists |
| FileSystems.FileSystem.Write | agents/drawio_converter.py:54-55 | the path exists afterwards and holds exactly the text written; no other path string changes |
| DrawioConverter.DrawioPath | agents/drawio_converter.py:53 | `png_path.replace('.png', '.drawio')`; stated by `DrawioPathRejoins`, `DrawioPathWithoutPng`, `DrawioPathOfPngFile` and `DrawioPathDiffersWithPng` |
| DrawioConverter.ConvertEffect | agents/drawio_converter.py:45-64 | the relation between the file system before and after one conversion and its result, in the three cases of the source; stated by `MissingPngWritesNothing`, `ConvertWritesOneFile` and `WriteFaultReported` |
| DrawioConverter.SuccessMessage | agents/drawio_converter.py:60 | the success message, naming the written path right after "Draw.io file created at " |
| DrawioConverter.ConvertToDrawio | agents/drawio_converter.py:42-64 | missing PNG: failure and no change; failed write: failure with the error text and no change; otherwise one write of the document at the rewritten path, and the success record carries that path and the message `SuccessMessage` builds from it |
| DrawioConverter.MissingPngWritesNothing | agents/drawio_converter.py:45-46 | a missing PNG gives the error "PNG file not found" and leaves the file system unchanged |
| DrawioConverter.ConvertWritesOneFile | agents/drawio_converter.py:50-61 | success exactly when the PNG exists and the write does not fail; the reported path holds the document for the diagram name; every other path string is unchanged |
| DrawioConverter.WriteFaultReported | agents/drawio_converter.py:63-64 | an exception while writing is reported with its text, and nothing changes |
| DrawioConverter.DrawioPathRejoins | agents/drawio_converter.py:53 | the output path is the input split at every `.png` and rejoined with `.drawio` |
| DrawioConverter.DrawioPathWithoutPng | agents/drawio_converter.py:53-55 | a path without `.png` is its own output path, so the input path itself is overwritten |
| DrawioConverter.DrawioPathOfPngFile | agents/drawio_converter.py:53 | `stem.png`, with no other `.png` in the stem, becomes `stem.drawio` |
| DrawioConverter.DrawioPathDiffersWithPng | agents/drawio_converter.py:53-55 | a path with `.png` never maps to itself, so the PNG is not overwritten |
| McpClient.EffectiveWorkspace | agents/docker_mcp_sdk_client.py:18-20 | a missing or empty workspace directory is replaced by the default `outputs/diagrams/generated-diagrams` joined onto the working directory and normalised, as `abspath` does; any other is kept |
| McpClient.PathJoin | agents/docker_mcp_sdk_client.py:64-70 | `posixpath.join` of two parts; stated by `PathJoinPlain`, `OutputDirectoryJoined`, `GeneratedDiagramsJoin` and `FallbackPathAbsoluteName` |
| McpClient.LastSegment | agents/docker_mcp_sdk_client.py:63 | `container_path.split('/')[-1]`; `LastSegmentShape` states its shape |
| McpClient.FallbackPath | agents/docker_mcp_sdk_client.py:66-70 | `os.path.join(workspace_dir, f"{filename}.png")`; `FallbackPathInWorkspace` and `FallbackPathAbsoluteName` state it |
| McpClient.ContentPath | agents/docker_mcp_sdk_client.py:56-70 | the host path chosen from the parsed reply; `ContainerPathMapped` and `ContentFallback` state its two cases |
| McpClient.ImagePath | agents/docker_mcp_sdk_client.py:50-85 | the normalised content path when the result has content, the fallback path otherwise; `NoContentFallback` states the second case |
| McpClient.ResultText | agents/docker_mcp_sdk_client.py:52-92 | the content's text, or `str(result)` without content; `NoContentFallback` states the second case |
| McpClient.CallDiagramServer | agents/docker_mcp_sdk_client.py:15-98 | a raised call is a failure with its text and writes nothing; a returned one runs the converter on the resolved path with `filename` as the diagram name, and is a success naming that path unless closing the session raises, which is reported as the failure after the file is written |
| McpClient.LastSegmentShape | agents/docker_mcp_sdk_client.py:63 | the file name taken from the container path has no `/`, ends the path and follows its last `/` |
| McpClient.OutputDirectoryJoined | agents/docker_mcp_sdk_client.py:64 | joining `outputs`, `diagrams` and `generated-diagrams` gives the default workspace |
| McpClient.GeneratedDiagramsJoin | agents/docker_mcp_sdk_client.py:64 | joining that directory with a name without `/` puts one `/` between them |
| McpClient.PathJoinPlain | agents/docker_mcp_sdk_client.py:64-66 | `os.path.join` of a relative second part onto a first part without a trailing `/` inserts one `/` |
| McpClient.ContainerPathMapped | agents/docker_mcp_sdk_client.py:61-64 | a `path` under `/workspace/generated-diagrams/` maps to `outputs/diagrams/generated-diagrams/<last segment>` |
| McpClient.ContentFallback | agents/docker_mcp_sdk_client.py:65-70 | a `path` without the marker, a reply without `path`, or one that does not parse gives `workspace_dir/<filename>.png` |
| McpClient.NoContentFallback | agents/docker_mcp_sdk_client.py:84-92 | a result without content gives `workspace_dir/<filename>.png`, not normalised, and `str(result)` as its text |
| McpClient.FallbackPathInWorkspace | agents/docker_mcp_sdk_client.py:66 | the fallback is the workspace, one `/`, the file name and `.png` |
| McpClient.FallbackPathAbsoluteName | agents/docker_mcp_sdk_client.py:66 | an absolute file name drops the workspace from the fallback path |

## Left out

- The Bedrock `converse` call and the Rekognition calls and stub: these are remote services. The reply text is an input of `ExtractCode`.
- The `compile` check and the smart-quote repair after the fence extraction: they depend on the Python compiler.
- The MCP stdio session, `docker exec` and `json.loads`: these are process and protocol I/O. Their outcome is the input `ToolReply`.
- `os.path.normpath`: a parameter, uninterpreted. `os.path.abspath(p)` is `normpath(join(cwd, p))`, with the working directory as a parameter.
- Paths are plain strings. The file system's entries are keyed by the path as written, so two spellings of one file (relative and absolute, with `.`, `..`, repeated `/` or links) are unrelated entries, and the working directory `cwd` used for `abspath` is not tied to `FileSystem`. A relative image path such as `outputs/diagrams/generated-diagrams/x.png` is therefore not found under its absolute spelling, and "no other path changes" means no other path string.
- `os.path.join` is POSIX `posixpath.join`. Windows separators and drive letters are not modelled.
- CallDiagramServer: does not model `os.makedirs(workspace_dir)`. Directories are not tracked apart from the paths that exist, and the exception it may raise is not modelled. An exception raised while the session closes is an input (`closeFault`); one raised while an earlier exception is being handled is taken to be the one reported.
- ConvertToDrawio: the write exception is an input. A failing write is taken to change nothing, so a partly written file is not modelled, and neither is newline translation on Windows.
- Whitespace for `strip` is Python's `isspace` set, listed code point by code point. No other Unicode behaviour is modelled.
- The asyncio wrapper, the Streamlit UI, the launcher, the AWS client factory and the subprocess Docker client are not part of this model.

## Findings

| source | as written | input that shows it | evidently intended | confidence | as-written member | corrected member |
|---|---|---|---|---|---|---|
| agents/bedrock_strands_agent.py:124 | `text.split("```python")[1]` stops at a second opening marker. When the fence closing the first block starts one or two characters before that marker, this first `split` cuts through the fence, and `split("```")` then finds no fence in the one or two backticks left. `ExtractCodeAgreesWithIntended` shows these are exactly the inputs on which the written and intended extractions differ | ```` ```pythonab`````python ```` gives ```` ab`` ```` | the stripped text between the first opening marker and the first fence after it, `ab` | low; not executed | FenceExtraction.SecondOpeningKeepsBackticks | FenceExtraction.ExtractCodeIntendedTakesBody |
