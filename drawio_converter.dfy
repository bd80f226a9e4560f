/**
 * `DrawIOConverter.convert_to_drawio` (agents/drawio_converter.py): a guard
 * on the PNG file's existence, the `.png` to `.drawio` path rewrite, and one
 * write of the fixed document. The diagram code is accepted and never read.
 *
 * An exception raised by `open` or `write` is an input, `writeFault`: its
 * text when the write fails, `None` when it succeeds. A failure is taken to
 * happen before anything is written.
 */
module DrawioConverter {
  import opened Wrappers
  import opened Strings
  import opened DrawioDocument
  import opened FileSystems

  /** The result record: `{"success": True, "drawio_path", "message"}` or `{"success": False, "error"}`. */
  datatype ConvertResult =
    | ConvertSuccess(drawioPath: string, message: string)
    | ConvertFailure(error: string)

  const NotFoundError: string := "PNG file not found"

  /** `png_path.replace('.png', '.drawio')`: every occurrence, left to right. */
  function DrawioPath(pngPath: string): string
  {
    ReplaceAll(pngPath, ".png", ".drawio")
  }

  /** The success message; the written path is quoted in it, right after "Draw.io file created at ". */
  function SuccessMessage(drawioPath: string): (r: string)
    ensures |r| >= 24 + |drawioPath| && r[24..24 + |drawioPath|] == drawioPath
  {
    "Draw.io file created at " + drawioPath + " using Claude 4 Sonnet analysis"
  }

  /**
   * What one conversion does, between the file system before (`existing0`,
   * `contents0`) and after (`existing1`, `contents1`): a missing PNG or a
   * failed write leaves everything as it was and reports the error; otherwise
   * the document is written at the rewritten path and the result names it.
   */
  predicate ConvertEffect(existing0: set<string>, contents0: map<string, string>,
                          existing1: set<string>, contents1: map<string, string>,
                          pngPath: string, diagramName: string, writeFault: Option<string>,
                          r: ConvertResult)
  {
    if pngPath !in existing0 then
      r == ConvertFailure(NotFoundError) && existing1 == existing0 && contents1 == contents0
    else if writeFault.Some? then
      r == ConvertFailure(writeFault.value) && existing1 == existing0 && contents1 == contents0
    else
      var out := DrawioPath(pngPath);
      r == ConvertSuccess(out, SuccessMessage(out))
      && existing1 == existing0 + {out}
      && contents1 == contents0[out := CreateWorkingDrawioXml(diagramName)]
  }

  /** `convert_to_drawio(png_path, diagram_name, diagram_code)`. */
  method ConvertToDrawio(fs: FileSystem, pngPath: string, diagramName: string,
                         diagramCode: Option<string>, writeFault: Option<string>)
    returns (r: ConvertResult)
    requires fs.Valid()
    modifies fs
    ensures fs.Valid()
    ensures ConvertEffect(old(fs.existing), old(fs.contents), fs.existing, fs.contents,
                          pngPath, diagramName, writeFault, r)
  {
    var present := fs.Exists(pngPath);
    if !present {
      return ConvertFailure(NotFoundError);
    }
    var drawioXml := CreateWorkingDrawioXml(diagramName);
    var drawioPath := DrawioPath(pngPath);
    if writeFault.Some? {
      return ConvertFailure(writeFault.value);
    }
    fs.Write(drawioPath, drawioXml);
    r := ConvertSuccess(drawioPath, SuccessMessage(drawioPath));
  }

  /** A missing PNG file is reported as such, and nothing is written. */
  lemma MissingPngWritesNothing(existing0: set<string>, contents0: map<string, string>,
                                existing1: set<string>, contents1: map<string, string>,
                                pngPath: string, diagramName: string, writeFault: Option<string>,
                                r: ConvertResult)
    requires ConvertEffect(existing0, contents0, existing1, contents1, pngPath, diagramName, writeFault, r)
    requires pngPath !in existing0
    ensures r == ConvertFailure("PNG file not found")
    ensures existing1 == existing0 && contents1 == contents0
  {
  }

  /**
   * A conversion succeeds exactly when the PNG exists and the write does not
   * fail; then the reported path holds the document for the diagram name
   * (from which `DiagramNameRoundTrip` reads the name back), and
   * every other path keeps whether it exists and what it holds.
   */
  lemma ConvertWritesOneFile(existing0: set<string>, contents0: map<string, string>,
                             existing1: set<string>, contents1: map<string, string>,
                             pngPath: string, diagramName: string, writeFault: Option<string>,
                             r: ConvertResult)
    requires ConvertEffect(existing0, contents0, existing1, contents1, pngPath, diagramName, writeFault, r)
    ensures r.ConvertSuccess? <==> pngPath in existing0 && writeFault.None?
    ensures r.ConvertSuccess? ==>
      r.drawioPath == DrawioPath(pngPath)
      && r.drawioPath in existing1 && r.drawioPath in contents1
      && contents1[r.drawioPath] == CreateWorkingDrawioXml(diagramName)
    ensures forall p :: !(r.ConvertSuccess? && p == r.drawioPath) ==>
      (p in existing1 <==> p in existing0)
      && (p in contents1 <==> p in contents0)
      && (p in contents0 ==> contents1[p] == contents0[p])
  {
  }

  /** A failed write reports the exception's text and leaves the file system as it was. */
  lemma WriteFaultReported(existing0: set<string>, contents0: map<string, string>,
                           existing1: set<string>, contents1: map<string, string>,
                           pngPath: string, diagramName: string, fault: string,
                           r: ConvertResult)
    requires ConvertEffect(existing0, contents0, existing1, contents1, pngPath, diagramName, Some(fault), r)
    requires pngPath in existing0
    ensures r == ConvertFailure(fault)
    ensures existing1 == existing0 && contents1 == contents0
  {
  }

  /**
   * The output path is the input split at every `.png` and rejoined with
   * `.drawio` between the pieces.
   */
  lemma DrawioPathRejoins(pngPath: string)
    ensures DrawioPath(pngPath) == Join(Split(pngPath, ".png"), ".drawio")
  {
    ReplaceAllIsJoinOfSplit(pngPath, ".png", ".drawio");
  }

  /** A path without `.png` is kept as it is, so the document overwrites the input path itself. */
  lemma DrawioPathWithoutPng(pngPath: string)
    requires !Contains(pngPath, ".png")
    ensures DrawioPath(pngPath) == pngPath
  {
    ReplaceAllAbsent(pngPath, ".png", ".drawio");
  }

  /** A file name whose only `.png` is its extension gets the extension `.drawio` instead. */
  lemma DrawioPathOfPngFile(stem: string)
    requires !Contains(stem, ".png")
    ensures DrawioPath(stem + ".png") == stem + ".drawio"
  {
    var s := stem + ".png";
    var k := |stem|;
    assert s[k..] == ".png";
    assert OccursAt(s, ".png", k);
    forall j | 0 <= j < k
      ensures !OccursAt(s, ".png", j)
    {
      if j + 4 <= k {
        assert s[j..j + 4] == stem[j..j + 4];
        assert !OccursAt(stem, ".png", j);
      } else {
        MismatchAt(s, ".png", j, k - j);
      }
    }
    FindFirstIs(s, ".png", k);
    assert s[k + 4..] == "";
    assert Split(s, ".png") == [stem] + Split("", ".png");
    assert Split("", ".png") == [""];
    DrawioPathRejoins(s);
    JoinCons(stem, [""], ".drawio");
  }

  /** A path with at least one `.png` is not the output path: the input file is never overwritten. */
  lemma DrawioPathDiffersWithPng(pngPath: string)
    requires Contains(pngPath, ".png")
    ensures DrawioPath(pngPath) != pngPath
  {
    var parts := Split(pngPath, ".png");
    DrawioPathRejoins(pngPath);
    JoinSplit(pngPath, ".png");
    JoinLonger(parts, ".png", ".drawio");
  }

  /** Rejoining two or more pieces with a longer separator gives a longer text. */
  lemma {:induction false} JoinLonger(parts: seq<string>, short: string, long: string)
    requires |parts| >= 2 && |short| < |long|
    ensures |Join(parts, short)| < |Join(parts, long)|
  {
    JoinLast(parts, short);
    JoinLast(parts, long);
    if |parts| > 2 {
      JoinLonger(parts[..|parts| - 1], short, long);
    }
  }
}
