/**
 * The portfolio catalogue as the routing code sees it: each item's id, type,
 * diagram variant and whether it carries a technical (code) view, the
 * combined list `[...papers, ...projects]`, the `find` lookups, and the
 * detail view's choice between the diagram and the code terminal.
 */
module Catalogue {
  import opened Common

  datatype Kind = Research | Project

  /** The optional `technical` block; only whether its snippet is non-empty matters here. */
  datatype Technical = Technical(codeSnippet: string)

  /** A portfolio item; `diagramType` is a string so that unknown values can be modelled. */
  datatype Item = Item(id: string, kind: Kind, diagramType: string, technical: Option<Technical>)

  /** Stands for each item's code snippet text, which is non-empty in every item. */
  const Snippet: string := "code"

  const Papers: seq<Item> := [
    Item("autism-ai", Research, "flow-chart", Some(Technical(Snippet))),
    Item("food-recommendation", Research, "fuzzy-curves", Some(Technical(Snippet))),
    Item("healthcare-dl", Research, "venn-diagram", Some(Technical(Snippet))),
    Item("pm25-prediction", Research, "bar-chart", Some(Technical(Snippet)))
  ]

  const Projects: seq<Item> := [
    Item("autbot", Project, "waveform", Some(Technical(Snippet))),
    Item("selfmed", Project, "network-graph", Some(Technical(Snippet))),
    Item("signature-verification", Project, "confidence-meter", Some(Technical(Snippet))),
    Item("gesture-recognition", Project, "depth-grid", Some(Technical(Snippet)))
  ]

  /** `allItems = [...papers, ...projects]` */
  const AllItems: seq<Item> := Papers + Projects

  predicate HasId(items: seq<Item>, id: string) {
    exists i :: 0 <= i < |items| && items[i].id == id
  }

  /** `items.find(p => p.id === id)`: the first item with that id, if any. */
  function Find(items: seq<Item>, id: string): (r: Option<Item>)
    ensures r.None? <==> !HasId(items, id)
    ensures r.Some? ==> r.value.id == id && r.value in items
    ensures r.Some? ==> exists i :: 0 <= i < |items| && items[i] == r.value &&
                          forall j :: 0 <= j < i ==> items[j].id != id
    decreases |items|
  {
    if items == [] then None
    else if items[0].id == id then Some(items[0])
    else
      var r := Find(items[1..], id);
      assert HasId(items, id) ==> HasId(items[1..], id) by {
        if HasId(items, id) {
          var i :| 0 <= i < |items| && items[i].id == id;
          assert items[1..][i - 1].id == id;
        }
      }
      r
  }

  /** No two catalogue items share an id. */
  predicate DistinctIds(items: seq<Item>) {
    forall i, j :: 0 <= i < j < |items| ==> items[i].id != items[j].id
  }

  lemma CatalogueIdsDistinct()
    ensures |AllItems| == 8
    ensures DistinctIds(AllItems)
  {
  }

  /** Every catalogue item is found by its own id, so each id names exactly one item. */
  lemma FindEachItem(i: nat)
    requires i < |AllItems|
    ensures Find(AllItems, AllItems[i].id) == Some(AllItems[i])
  {
    CatalogueIdsDistinct();
    var r := Find(AllItems, AllItems[i].id);
    var k :| 0 <= k < |AllItems| && AllItems[k] == r.value &&
             forall j :: 0 <= j < k ==> AllItems[j].id != AllItems[i].id;
    assert k == i;
  }

  /** The diagram components of the detail view. */
  datatype Diagram =
    | FeatureSelectionChart
    | DualStreamPipeline
    | FuzzyLogicCurves
    | AIHierarchyVenn
    | AudioWaveform
    | NetworkGraph
    | ConfidenceMeter
    | DepthGrid

  /** The `diagramType` value that selects each component. */
  function DiagramTypeName(d: Diagram): string {
    match d
    case FeatureSelectionChart => "bar-chart"
    case DualStreamPipeline => "flow-chart"
    case FuzzyLogicCurves => "fuzzy-curves"
    case AIHierarchyVenn => "venn-diagram"
    case AudioWaveform => "waveform"
    case NetworkGraph => "network-graph"
    case ConfidenceMeter => "confidence-meter"
    case DepthGrid => "depth-grid"
  }

  /** `renderDiagram`: the switch on `visuals.diagramType`, with `null` for anything else. */
  function RenderDiagram(diagramType: string): Option<Diagram> {
    match diagramType
    case "bar-chart" => Some(FeatureSelectionChart)
    case "flow-chart" => Some(DualStreamPipeline)
    case "fuzzy-curves" => Some(FuzzyLogicCurves)
    case "venn-diagram" => Some(AIHierarchyVenn)
    case "waveform" => Some(AudioWaveform)
    case "network-graph" => Some(NetworkGraph)
    case "confidence-meter" => Some(ConfidenceMeter)
    case "depth-grid" => Some(DepthGrid)
    case _ => None
  }

  /**
   * Each of the eight variants selects exactly its own component, and a
   * component is only ever selected by its own variant name.
   */
  lemma RenderDiagramExact(t: string, d: Diagram)
    ensures RenderDiagram(DiagramTypeName(d)) == Some(d)
    ensures RenderDiagram(t) == Some(d) ==> t == DiagramTypeName(d)
  {
  }

  /** A value outside the eight variants renders nothing. */
  lemma RenderDiagramUnknown(t: string)
    requires forall d: Diagram :: t != DiagramTypeName(d)
    ensures RenderDiagram(t) == None
  {
    if RenderDiagram(t).Some? {
      RenderDiagramExact(t, RenderDiagram(t).value);
    }
  }

  /** Every catalogue item names one of the eight known variants. */
  lemma CatalogueDiagramsKnown(i: nat)
    requires i < |AllItems|
    ensures RenderDiagram(AllItems[i].diagramType).Some?
  {
  }

  /** What the right-hand panel of the methodology section shows. */
  datatype Panel = CodeTerminal(code: string) | DiagramPanel(diagram: Option<Diagram>)

  /** `showTechnical && technical?.codeSnippet ? <CodeTerminal/> : renderDiagram()` */
  function MethodologyPanel(item: Item, showTechnical: bool): (p: Panel)
    ensures p.CodeTerminal? <==>
              showTechnical && item.technical.Some? && item.technical.value.codeSnippet != ""
    ensures p.DiagramPanel? ==> p.diagram == RenderDiagram(item.diagramType)
  {
    if showTechnical && item.technical.Some? && item.technical.value.codeSnippet != "" then
      CodeTerminal(item.technical.value.codeSnippet)
    else
      DiagramPanel(RenderDiagram(item.diagramType))
  }
}
