/**
 * Markdown code-fence removal applied to the language model's reply before
 * the reply is treated as diagram source code
 * (agents/bedrock_strands_agent.py, generate_architecture_diagram).
 *
 * The reply text is an input here; the model call itself is not modelled.
 */
module FenceExtraction {
  import opened Wrappers
  import opened Strings

  /** The opening marker of a Python block. */
  const PythonFence: string := "```python"
  /** A bare fence, opening or closing. */
  const Fence: string := "```"

  /**
   * The extraction as written: with a Python block,
   * `text.split("```python")[1].split("```")[0].strip()`; otherwise with any
   * fence, `text.split("```")[1].split("```")[0].strip()`; otherwise the text
   * itself. Each `[1]` is in range because its branch is guarded by the
   * separator being present (the second ensures of `Split`).
   */
  function ExtractCode(text: string): string
  {
    if Contains(text, PythonFence) then
      Strip(Split(Split(text, PythonFence)[1], Fence)[0])
    else if Contains(text, Fence) then
      Strip(Split(Split(text, Fence)[1], Fence)[0])
    else
      text
  }

  /** Every Python opening marker is also a fence. */
  lemma PythonFenceIsFence(text: string)
    requires Contains(text, PythonFence)
    ensures Contains(text, Fence)
  {
    var i :| 0 <= i <= |text| && OccursAt(text, PythonFence, i);
    MarkerStartsFence(text, i);
  }

  /** A Python opening marker starts with a fence, at the same index. */
  lemma MarkerStartsFence(text: string, i: nat)
    requires OccursAt(text, PythonFence, i)
    ensures OccursAt(text, Fence, i) && Contains(text, Fence)
  {
    assert text[i..i + 3] == text[i..i + 9][..3];
    assert OccursAt(text, Fence, i) && i <= |text|;
  }

  /** Text without any fence is returned unchanged. */
  lemma ExtractCodeUnfenced(text: string)
    requires !Contains(text, Fence)
    ensures ExtractCode(text) == text
  {
    if Contains(text, PythonFence) {
      PythonFenceIsFence(text);
    }
  }

  /**
   * The Python branch takes precedence over the bare-fence branch: the result
   * is the text after the first opening marker, cut at the next opening marker
   * (the second `split` piece) and then at the first fence, stripped.
   */
  lemma ExtractCodePythonBranch(text: string)
    requires Contains(text, PythonFence)
    ensures ExtractCode(text)
         == Strip(BeforeFirst(BeforeFirst(AfterFirst(text, PythonFence), PythonFence), Fence))
  {
    SplitSecond(text, PythonFence);
    SplitFirst(Split(text, PythonFence)[1], Fence);
  }

  /**
   * The first fence after the opening marker starts one or two characters
   * before a second opening marker, so that `split("```python")` cuts through
   * the fence and the second `split` no longer finds it.
   */
  predicate FenceCutByMarker(rest: string)
  {
    FindFirst(rest, PythonFence).Some? && FindFirst(rest, Fence).Some?
    && FindFirst(rest, PythonFence).value - 2 <= FindFirst(rest, Fence).value < FindFirst(rest, PythonFence).value
  }

  /** The reply's first Python block has its closing fence cut by a second marker. */
  predicate SecondMarkerCutsFence(text: string)
  {
    Contains(text, PythonFence) && FenceCutByMarker(AfterFirst(text, PythonFence))
  }

  /**
   * Unless the first fence is cut by a second marker, a Python block yields
   * the stripped text between the opening marker and the first fence after it.
   */
  lemma ExtractCodePythonBlock(text: string)
    requires Contains(text, PythonFence)
    requires !FenceCutByMarker(AfterFirst(text, PythonFence))
    ensures ExtractCode(text) == Strip(BeforeFirst(AfterFirst(text, PythonFence), Fence))
  {
    ExtractCodePythonBranch(text);
    RestCutSame(AfterFirst(text, PythonFence));
  }

  /**
   * Cutting at a second marker first does not change the cut at the first
   * fence, provided that fence ends by the marker or starts it.
   */
  lemma RestCutSame(rest: string)
    requires !FenceCutByMarker(rest)
    ensures BeforeFirst(BeforeFirst(rest, PythonFence), Fence) == BeforeFirst(rest, Fence)
  {
    if FindFirst(rest, PythonFence).Some? {
      var j := FindFirst(rest, PythonFence).value;
      CutAt(rest, PythonFence);
      MarkerStartsFence(rest, j);
      var i := FindFirst(rest, Fence).value;
      if i + |Fence| <= j {
        PrefixKeepsFirst(rest, Fence, j);
      } else {
        PrefixMissesFirst(rest, Fence, j);
        CutAt(rest, Fence);
      }
    }
  }

  /**
   * When the fence is cut, the written chain keeps the text up to the first
   * fence followed by the backticks of that fence that precede the second
   * marker.
   */
  lemma RestCutKeepsBackticks(rest: string)
    requires FenceCutByMarker(rest)
    ensures BeforeFirst(BeforeFirst(rest, PythonFence), Fence)
         == BeforeFirst(rest, Fence) + rest[FindFirst(rest, Fence).value..FindFirst(rest, PythonFence).value]
  {
    var j := FindFirst(rest, PythonFence).value;
    var i := FindFirst(rest, Fence).value;
    CutAt(rest, PythonFence);
    CutAt(rest, Fence);
    PrefixMissesFirst(rest, Fence, j);
    PrefixSplits(rest, i, j);
  }

  lemma PrefixSplits(s: string, i: nat, j: nat)
    requires i <= j <= |s|
    ensures s[..j] == s[..i] + s[i..j]
  {
  }

  /** The one or two characters of a fence before a later index are backticks. */
  lemma StrayBackticks(rest: string, i: nat, j: nat)
    requires OccursAt(rest, Fence, i) && i < j <= i + 2
    ensures rest[i..j][0] == '`' && rest[i..j][j - i - 1] == '`'
  {
    assert rest[i..i + 3] == Fence;
    assert rest[i..j][0] == rest[i..i + 3][0];
    assert rest[i..j][j - i - 1] == rest[i..i + 3][j - i - 1];
  }

  /** With the fence cut, the written result is longer than the block body: they differ. */
  lemma CutFenceDiffers(rest: string)
    requires FenceCutByMarker(rest)
    ensures Strip(BeforeFirst(BeforeFirst(rest, PythonFence), Fence)) != Strip(BeforeFirst(rest, Fence))
  {
    var j := FindFirst(rest, PythonFence).value;
    var i := FindFirst(rest, Fence).value;
    RestCutKeepsBackticks(rest);
    StrayBackticks(rest, i, j);
    AppendedStripDiffers(BeforeFirst(BeforeFirst(rest, PythonFence), Fence), BeforeFirst(rest, Fence), rest[i..j]);
  }

  lemma AppendedStripDiffers(cut: string, body: string, extra: string)
    requires cut == body + extra
    requires |extra| > 0 && extra[0] == '`' && extra[|extra| - 1] == '`'
    ensures Strip(cut) != Strip(body)
  {
    StripAppend(body, extra);
  }

  /** A bare fence (and no Python marker) yields the stripped text between the first two fences. */
  lemma ExtractCodeGenericBlock(text: string)
    requires !Contains(text, PythonFence) && Contains(text, Fence)
    ensures ExtractCode(text) == Strip(BeforeFirst(AfterFirst(text, Fence), Fence))
  {
    SplitSecond(text, Fence);
    SplitFirst(Split(text, Fence)[1], Fence);
  }

  /** An unclosed Python block yields the stripped remainder after the opening marker. */
  lemma ExtractCodeUnclosedPython(text: string)
    requires Contains(text, PythonFence)
    requires !Contains(AfterFirst(text, PythonFence), Fence)
    ensures ExtractCode(text) == Strip(AfterFirst(text, PythonFence))
  {
    var rest := AfterFirst(text, PythonFence);
    if Contains(rest, PythonFence) {
      PythonFenceIsFence(rest);
    }
    ExtractCodePythonBranch(text);
  }

  /** An unclosed bare fence yields the stripped remainder after it. */
  lemma ExtractCodeUnclosedGeneric(text: string)
    requires !Contains(text, PythonFence) && Contains(text, Fence)
    requires !Contains(AfterFirst(text, Fence), Fence)
    ensures ExtractCode(text) == Strip(AfterFirst(text, Fence))
  {
    ExtractCodeGenericBlock(text);
  }

  /** Once a fence branch is taken, no fence is left and no whitespace surrounds the code. */
  lemma ExtractCodeFenceFree(text: string)
    requires Contains(text, Fence)
    ensures !Contains(ExtractCode(text), Fence)
    ensures Strip(ExtractCode(text)) == ExtractCode(text)
  {
    var piece;
    if Contains(text, PythonFence) {
      piece := Split(Split(text, PythonFence)[1], Fence)[0];
    } else {
      piece := Split(Split(text, Fence)[1], Fence)[0];
    }
    assert ExtractCode(text) == Strip(piece);
    SplitFirst(if Contains(text, PythonFence) then Split(text, PythonFence)[1] else Split(text, Fence)[1], Fence);
    StripKeepsAbsence(piece, Fence);
    StripIdempotent(piece);
  }

  /** Applying the extraction to its own result changes nothing. */
  lemma ExtractCodeIdempotent(text: string)
    ensures ExtractCode(ExtractCode(text)) == ExtractCode(text)
  {
    if Contains(text, Fence) {
      ExtractCodeFenceFree(text);
      ExtractCodeUnfenced(ExtractCode(text));
    } else {
      ExtractCodeUnfenced(text);
    }
  }

  /**
   * The extraction as evidently intended: the stripped text between the first
   * opening marker and the first fence after it (for a Python block), or
   * between the first two fences.
   */
  function ExtractCodeIntended(text: string): string
  {
    if Contains(text, PythonFence) then
      Strip(BeforeFirst(AfterFirst(text, PythonFence), Fence))
    else if Contains(text, Fence) then
      Strip(BeforeFirst(AfterFirst(text, Fence), Fence))
    else
      text
  }

  /**
   * The intended extraction takes exactly the block body: when the first
   * opening marker starts at `at` and the first fence after it starts
   * `len` characters later, the result is the text in between, stripped.
   */
  lemma ExtractCodeIntendedTakesBody(text: string, at: nat, len: nat)
    requires FindFirst(text, PythonFence) == Some(at)
    requires FindFirst(text[at + |PythonFence|..], Fence) == Some(len)
    ensures ExtractCodeIntended(text) == Strip(text[at + |PythonFence|..at + |PythonFence| + len])
  {
    BetweenFirstAt(text, PythonFence, Fence, at, len);
    IntendedPythonBranch(text);
  }

  lemma IntendedPythonBranch(text: string)
    requires Contains(text, PythonFence)
    ensures ExtractCodeIntended(text) == Strip(BeforeFirst(AfterFirst(text, PythonFence), Fence))
  {
  }

  /**
   * The written and the intended extraction agree exactly when the first
   * Python block's closing fence is not cut by a second opening marker.
   */
  lemma ExtractCodeAgreesWithIntended(text: string)
    ensures ExtractCode(text) == ExtractCodeIntended(text) <==> !SecondMarkerCutsFence(text)
  {
    if Contains(text, PythonFence) {
      var rest := AfterFirst(text, PythonFence);
      ExtractCodePythonBranch(text);
      IntendedPythonBranch(text);
      if FenceCutByMarker(rest) {
        CutFenceDiffers(rest);
      } else {
        RestCutSame(rest);
      }
    } else if Contains(text, Fence) {
      ExtractCodeGenericBlock(text);
    }
  }

  /**
   * Where they differ: backticks just before a second opening marker form a
   * fence that `split("```python")` cuts through, so two stray backticks stay
   * in the written result.
   */
  lemma SecondOpeningKeepsBackticks()
    ensures ExtractCode("```pythonab`````python") == "ab``"
    ensures ExtractCodeIntended("```pythonab`````python") == "ab"
  {
    WrittenExample();
    IntendedExample();
  }

  lemma WrittenExample()
    ensures ExtractCode("```pythonab`````python") == "ab``"
  {
    OpeningOfExample();
    CutsOfExampleRest();
    NoFenceInExamplePiece();
    WrittenOnExample("```pythonab`````python", "ab`````python", "ab``");
  }

  lemma IntendedExample()
    ensures ExtractCodeIntended("```pythonab`````python") == "ab"
  {
    OpeningOfExample();
    CutsOfExampleRest();
    IntendedOnExample("```pythonab`````python", "ab`````python", "ab");
  }

  lemma WrittenOnExample(text: string, rest: string, piece: string)
    requires Contains(text, PythonFence) && AfterFirst(text, PythonFence) == rest
    requires BeforeFirst(rest, PythonFence) == piece && !Contains(piece, Fence)
    requires |piece| > 0 && !IsSpace(piece[0]) && !IsSpace(piece[|piece| - 1])
    ensures ExtractCode(text) == piece
  {
    ExtractCodePythonBranch(text);
    assert BeforeFirst(piece, Fence) == piece;
    StripUnchanged(piece);
  }

  lemma IntendedOnExample(text: string, rest: string, piece: string)
    requires Contains(text, PythonFence) && AfterFirst(text, PythonFence) == rest
    requires BeforeFirst(rest, Fence) == piece
    requires |piece| > 0 && !IsSpace(piece[0]) && !IsSpace(piece[|piece| - 1])
    ensures ExtractCodeIntended(text) == piece
  {
    StripUnchanged(piece);
  }

  lemma OpeningOfExample()
    ensures Contains("```pythonab`````python", PythonFence)
    ensures AfterFirst("```pythonab`````python", PythonFence) == "ab`````python"
  {
    var text := "```pythonab`````python";
    assert OccursAt(text, PythonFence, 0);
    FindFirstIs(text, PythonFence, 0);
  }

  lemma CutsOfExampleRest()
    ensures BeforeFirst("ab`````python", PythonFence) == "ab``"
    ensures BeforeFirst("ab`````python", Fence) == "ab"
  {
    SecondOpeningInExampleRest();
    FirstFenceInExampleRest();
  }

  lemma SecondOpeningInExampleRest()
    ensures FindFirst("ab`````python", PythonFence) == Some(4)
  {
    var rest := "ab`````python";
    assert OccursAt(rest, PythonFence, 4);
    MismatchAt(rest, PythonFence, 0, 0);
    MismatchAt(rest, PythonFence, 1, 0);
    MismatchAt(rest, PythonFence, 2, 3);
    MismatchAt(rest, PythonFence, 3, 3);
    FindFirstIs(rest, PythonFence, 4);
  }

  lemma NoFenceInExamplePiece()
    ensures !Contains("ab``", Fence)
  {
    MismatchAt("ab``", Fence, 0, 0);
    MismatchAt("ab``", Fence, 1, 0);
  }

  lemma FirstFenceInExampleRest()
    ensures FindFirst("ab`````python", Fence) == Some(2)
  {
    var rest := "ab`````python";
    assert OccursAt(rest, Fence, 2);
    MismatchAt(rest, Fence, 0, 0);
    MismatchAt(rest, Fence, 1, 0);
    FindFirstIs(rest, Fence, 2);
  }
}
