/**
 * The Draw.io document that `DrawIOConverter.create_working_drawio_xml`
 * produces (agents/drawio_converter.py): a fixed mxGraph file whose only
 * variable part is the diagram name, interpolated verbatim into the `name`
 * attribute of the `<diagram>` element.
 *
 * The template is kept as data: `Template(name)` lists its cells, and
 * `Render` writes a document out line by line, attribute by attribute, in the
 * order and layout of the source's f-string. The shape of the graph (distinct
 * ids, parents that exist, one edge between two vertices) is stated on the
 * cells; what the name does to the text is stated on the rendered text.
 */
module DrawioDocument {
  import opened Wrappers

  /** Decimal rendering of a number, as an f-string or an XML attribute writes it. */
  function NatToString(n: nat): string
  {
    if n < 10 then [DigitChar(n)] else NatToString(n / 10) + [DigitChar(n % 10)]
  }

  function DigitChar(d: nat): char
    requires d < 10
  {
    "0123456789"[d]
  }

  datatype Point = Point(x: nat, y: nat)

  /** One `<mxCell>` of the graph model. */
  datatype Cell =
    | RootCell(id: nat)
    | LayerCell(id: nat, parent: nat)
    | VertexCell(id: nat, value: string, style: string, parent: nat,
                 x: nat, y: nat, width: nat, height: nat)
    | EdgeCell(id: nat, value: string, style: string, parent: nat, source: nat, target: nat,
               width: nat, height: nat, sourcePoint: Point, targetPoint: Point)

  datatype Document = Document(diagramName: string, cells: seq<Cell>)

  const LambdaStyle: string :=
    "sketch=0;outlineConnect=0;fontColor=#232F3E;gradientColor=none;fillColor=#ED7100;strokeColor=none;dashed=0;verticalLabelPosition=bottom;verticalAlign=top;align=center;html=1;fontSize=12;fontStyle=0;aspect=fixed;pointerEvents=1;shape=mxgraph.aws4.lambda_function;"
  const S3Style: string :=
    "sketch=0;outlineConnect=0;fontColor=#232F3E;gradientColor=none;fillColor=#7AA116;strokeColor=none;dashed=0;verticalLabelPosition=bottom;verticalAlign=top;align=center;html=1;fontSize=12;fontStyle=0;aspect=fixed;pointerEvents=1;shape=mxgraph.aws4.s3;"
  /** Leaves the source on its right side (exitX=1) and enters the target on its left side (entryX=0). */
  const ArrowStyle: string :=
    "endArrow=classic;html=1;rounded=0;exitX=1;exitY=0.5;exitDx=0;exitDy=0;exitPerimeter=0;entryX=0;entryY=0.5;entryDx=0;entryDy=0;entryPerimeter=0;"
  const GraphModelOpen: string :=
    "    <mxGraphModel dx=\"1422\" dy=\"794\" grid=\"1\" gridSize=\"10\" guides=\"1\" tooltips=\"1\" connect=\"1\" arrows=\"1\" fold=\"1\" page=\"1\" pageScale=\"1\" pageWidth=\"827\" pageHeight=\"1169\" math=\"0\" shadow=\"0\">\n"

  /** The cells of the template: the root, the default layer, a Lambda and an S3 shape, and one arrow between them. */
  const TemplateCells: seq<Cell> := [
    RootCell(0),
    LayerCell(1, 0),
    VertexCell(2, "Lambda Function", LambdaStyle, 1, 200, 200, 78, 78),
    VertexCell(3, "S3 Bucket", S3Style, 1, 400, 200, 78, 78),
    EdgeCell(4, "", ArrowStyle, 1, 2, 3, 50, 50, Point(300, 300), Point(350, 250))
  ]

  /** The template under a given name. */
  function Template(diagramName: string): Document
  {
    Document(diagramName, TemplateCells)
  }

  function Attr(name: string, value: string): string
  {
    " " + name + "=\"" + value + "\""
  }

  function RenderCell(c: Cell): string
  {
    match c
    case RootCell(id) =>
      "        <mxCell" + Attr("id", NatToString(id)) + "/>\n"
    case LayerCell(id, parent) =>
      "        <mxCell" + Attr("id", NatToString(id)) + Attr("parent", NatToString(parent)) + "/>\n"
    case VertexCell(id, value, style, parent, x, y, width, height) =>
      "        <mxCell" + Attr("id", NatToString(id)) + Attr("value", value) + Attr("style", style)
      + Attr("vertex", "1") + Attr("parent", NatToString(parent)) + ">\n"
      + "          <mxGeometry" + Attr("x", NatToString(x)) + Attr("y", NatToString(y))
      + Attr("width", NatToString(width)) + Attr("height", NatToString(height)) + Attr("as", "geometry") + "/>\n"
      + "        </mxCell>\n"
    case EdgeCell(id, value, style, parent, source, target, width, height, sp, tp) =>
      "        <mxCell" + Attr("id", NatToString(id)) + Attr("value", value) + Attr("style", style)
      + Attr("edge", "1") + Attr("parent", NatToString(parent))
      + Attr("source", NatToString(source)) + Attr("target", NatToString(target)) + ">\n"
      + "          <mxGeometry" + Attr("width", NatToString(width)) + Attr("height", NatToString(height))
      + Attr("relative", "1") + Attr("as", "geometry") + ">\n"
      + "            <mxPoint" + Attr("x", NatToString(sp.x)) + Attr("y", NatToString(sp.y)) + Attr("as", "sourcePoint") + "/>\n"
      + "            <mxPoint" + Attr("x", NatToString(tp.x)) + Attr("y", NatToString(tp.y)) + Attr("as", "targetPoint") + "/>\n"
      + "          </mxGeometry>\n"
      + "        </mxCell>\n"
  }

  function RenderCells(cells: seq<Cell>): string
  {
    if cells == [] then "" else RenderCell(cells[0]) + RenderCells(cells[1..])
  }

  const FileOpen: string :=
    "<mxfile host=\"app.diagrams.net\" modified=\"2024-01-01T00:00:00.000Z\" agent=\"5.0 (Windows)\" version=\"22.1.11\" etag=\"generated\" type=\"device\">\n"

  /** The text up to the opening quote of the diagram's `name` attribute. */
  const NamePrefix: string := FileOpen + "  <diagram" + " name=\""

  /** The `<mxGraphModel>` element holding the given cells under `<root>`. */
  function GraphModel(cells: seq<Cell>): string
  {
    GraphModelOpen
    + "      <root>\n"
    + RenderCells(cells)
    + "      </root>\n"
    + "    </mxGraphModel>\n"
  }

  /** The text after the `name` attribute: the `id` attribute, the graph model and the closing tags. */
  function DiagramRest(cells: seq<Cell>): string
  {
    Attr("id", "generated") + ">\n" + GraphModel(cells) + "  </diagram>\n" + "</mxfile>"
  }

  /** The text after the diagram name: it depends on the cells only. */
  function NameSuffix(cells: seq<Cell>): string
  {
    "\"" + DiagramRest(cells)
  }

  /** The document's text; attribute values are written as they are, without XML escaping. */
  function Render(d: Document): string
  {
    FileOpen + "  <diagram" + Attr("name", d.diagramName) + DiagramRest(d.cells)
  }

  /** `create_working_drawio_xml(diagram_name)`: the template's cells rendered under the given name. */
  function CreateWorkingDrawioXml(diagramName: string): string
  {
    Render(Template(diagramName))
  }

  /** The name is interpolated verbatim, as the `name` attribute's value; the text around it is fixed. */
  lemma DiagramNameVerbatim(diagramName: string)
    ensures CreateWorkingDrawioXml(diagramName) == NamePrefix + diagramName + NameSuffix(TemplateCells)
  {
    RenderAroundName(Template(diagramName));
  }

  /** Any rendered document is its name between a fixed prefix and a suffix that depends on the cells only. */
  lemma RenderAroundName(d: Document)
    ensures Render(d) == NamePrefix + d.diagramName + NameSuffix(d.cells)
  {
    AttrBetween(FileOpen + "  <diagram", "name", d.diagramName, DiagramRest(d.cells));
  }

  lemma AttrBetween(before: string, name: string, value: string, after: string)
    ensures before + Attr(name, value) + after == (before + " " + name + "=\"") + value + ("\"" + after)
  {
  }

  /** The text strictly between a given prefix and a given suffix, when the document has both. */
  function Between(doc: string, prefix: string, suffix: string): Option<string>
  {
    if |doc| >= |prefix| + |suffix| && doc[..|prefix|] == prefix && doc[|doc| - |suffix|..] == suffix
    then Some(doc[|prefix|..|doc| - |suffix|])
    else None
  }

  lemma BetweenRoundTrip(prefix: string, middle: string, suffix: string)
    ensures Between(prefix + middle + suffix, prefix, suffix) == Some(middle)
  {
    ThreePieces(prefix, middle, suffix);
  }

  /** The diagram name read back from a document of this template's shape. */
  function DiagramNameOf(doc: string): Option<string>
  {
    Between(doc, NamePrefix, NameSuffix(TemplateCells))
  }

  /** Reading the name back gives the name that was written. */
  lemma DiagramNameRoundTrip(diagramName: string)
    ensures DiagramNameOf(CreateWorkingDrawioXml(diagramName)) == Some(diagramName)
  {
    DiagramNameVerbatim(diagramName);
    BetweenRoundTrip(NamePrefix, diagramName, NameSuffix(TemplateCells));
  }

  /** Different names give different documents: the document depends on the name and on nothing else. */
  lemma DocumentDeterminesName(a: string, b: string)
    ensures CreateWorkingDrawioXml(a) == CreateWorkingDrawioXml(b) <==> a == b
  {
    DiagramNameRoundTrip(a);
    DiagramNameRoundTrip(b);
  }

  lemma ThreePieces(a: string, b: string, c: string)
    ensures (a + b + c)[..|a|] == a
    ensures (a + b + c)[|a + b + c| - |c|..] == c
    ensures (a + b + c)[|a|..|a + b + c| - |c|] == b
  {
  }

  /** Ids are pairwise distinct. */
  predicate DistinctIds(cells: seq<Cell>)
  {
    forall i, j :: 0 <= i < j < |cells| ==> cells[i].id != cells[j].id
  }

  predicate HasVertex(cells: seq<Cell>, id: nat)
  {
    exists k :: 0 <= k < |cells| && cells[k].VertexCell? && cells[k].id == id
  }

  /** Every cell but the root hangs under a cell that comes before it. */
  predicate ParentsPrecede(cells: seq<Cell>)
  {
    forall i :: 0 <= i < |cells| && !cells[i].RootCell? ==>
      exists k :: 0 <= k < i && cells[k].id == cells[i].parent
  }

  /** Every edge joins two vertices of the document. */
  predicate EdgesJoinVertices(cells: seq<Cell>)
  {
    forall i :: 0 <= i < |cells| && cells[i].EdgeCell? ==>
      HasVertex(cells, cells[i].source) && HasVertex(cells, cells[i].target)
  }

  /** The template's cells form a well-formed graph model: ids 0 to 4, a root, one layer, two shapes and one arrow from the Lambda shape (2) to the S3 shape (3). */
  lemma TemplateWellFormed(diagramName: string)
    ensures var cells := Template(diagramName).cells;
      |cells| == 5 && (forall i :: 0 <= i < 5 ==> cells[i].id == i)
      && DistinctIds(cells) && ParentsPrecede(cells) && EdgesJoinVertices(cells)
      && cells[0].RootCell? && cells[1].LayerCell? && cells[2].VertexCell? && cells[3].VertexCell?
      && cells[4].EdgeCell? && cells[4].source == 2 && cells[4].target == 3
  {
    var cells := Template(diagramName).cells;
    assert cells[0].id == 0 && cells[1].id == 1;
    assert HasVertex(cells, 2) && HasVertex(cells, 3) by {
      assert cells[2].VertexCell? && cells[3].VertexCell?;
    }
  }

  /**
   * The arrow leaves its source on the right and enters its target on the
   * left (its style), and the source shape lies wholly to the left of the
   * target shape on the same row (their geometry).
   */
  lemma TemplateEdgeRunsLeftToRight(diagramName: string)
    ensures var cells := Template(diagramName).cells;
      cells[2].VertexCell? && cells[3].VertexCell?
      && cells[2].x + cells[2].width < cells[3].x && cells[2].y == cells[3].y
  {
  }
}
