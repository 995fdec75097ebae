/** What the document renderer (`StardocRenderer` in components/Stardoc.tsx)
    emits for one documentation record: which sections appear, in which order,
    under which element ids, and the copy-link button beside each heading.
    Markup, styling and the markdown rendering of docstrings are not modelled;
    a docstring is carried as the text handed to the markdown renderer. */
module Renderer {
  import opened Basics
  import opened DocInfo
  import Anchors

  /** A table row: the name, and the docString cell only when it is non-empty. */
  datatype RowView = RowView(name: string, doc: Option<string>)

  /** One function, rule, provider or aspect block: its element id (also the
      copy-link target), the name shown, its docString when non-empty, and the
      rows of its parameter, attribute or field table (none: no table). */
  datatype ItemView = ItemView(anchorId: string, heading: string, doc: Option<string>, table: seq<RowView>)

  /** The module section: its element id, the file name heading it, and the docstring. */
  datatype ModuleView = ModuleView(anchorId: string, heading: string, docstring: string)

  /** One "Functions & Macros", "Rules", "Providers" or "Aspects" block. */
  datatype Block = Block(title: string, items: seq<ItemView>)

  /** The rendered record: its five conditional blocks in page order, each
      None when the page leaves it out. */
  datatype Rendered =
    | NoDocumentation
    | Document(moduleSection: Option<ModuleView>, functions: Option<Block>, rules: Option<Block>,
               providers: Option<Block>, aspects: Option<Block>)

  /** `s && <element/>`: rendered only when the string is non-empty. */
  function NonEmpty(s: string): Option<string> {
    if s == "" then None else Some(s)
  }

  function Rows(rows: seq<DocRow>): seq<RowView> {
    seq(|rows|, i requires 0 <= i < |rows| => RowView(rows[i].name, NonEmpty(rows[i].docString)))
  }

  function FunctionView(f: FunctionInfo): ItemView {
    ItemView(Anchors.AnchorId("function", f.functionName), f.functionName, NonEmpty(f.docString), Rows(f.parameter))
  }

  function RuleView(r: RuleInfo): ItemView {
    ItemView(Anchors.AnchorId("rule", r.ruleName), r.ruleName, NonEmpty(r.docString), Rows(r.attribute))
  }

  function ProviderView(p: ProviderInfo): ItemView {
    ItemView(Anchors.AnchorId("provider", p.providerName), p.providerName, NonEmpty(p.docString), Rows(p.fieldInfo))
  }

  function AspectView(a: AspectInfo): ItemView {
    ItemView(Anchors.AnchorId("aspect", a.aspectName), a.aspectName, NonEmpty(a.docString), [])
  }

  /** `list && list.length > 0 && <block/>` */
  function BlockOf(title: string, items: seq<ItemView>): Option<Block> {
    if |items| == 0 then None else Some(Block(title, items))
  }

  /** The element id of a record's module section: `generateAnchorId('file', file || 'module')`. */
  function FileAnchor(d: ModuleInfo): string {
    Anchors.AnchorId("file", OrDefault(d.file, "module"))
  }

  /** `<StardocRenderer stardoc={stardoc} />`; None is a missing record. */
  function Render(stardoc: Option<ModuleInfo>): Rendered {
    match stardoc
    case None => NoDocumentation
    case Some(d) =>
      Document(
        if d.moduleDocstring == "" then None else Some(ModuleView(FileAnchor(d), d.file, d.moduleDocstring)),
        BlockOf("Functions & Macros", seq(|d.funcInfo|, i requires 0 <= i < |d.funcInfo| => FunctionView(d.funcInfo[i]))),
        BlockOf("Rules", seq(|d.ruleInfo|, i requires 0 <= i < |d.ruleInfo| => RuleView(d.ruleInfo[i]))),
        BlockOf("Providers", seq(|d.providerInfo|, i requires 0 <= i < |d.providerInfo| => ProviderView(d.providerInfo[i]))),
        BlockOf("Aspects", seq(|d.aspectInfo|, i requires 0 <= i < |d.aspectInfo| => AspectView(d.aspectInfo[i]))))
  }

  /** The ids of a block's items, in order. */
  function BlockIds(b: Option<Block>): seq<string> {
    match b
    case None => []
    case Some(Block(_, items)) => seq(|items|, i requires 0 <= i < |items| => items[i].anchorId)
  }

  /** Every element id the rendered record carries, in document order. */
  function ElementIds(r: Rendered): seq<string> {
    match r
    case NoDocumentation => []
    case Document(m, fs, rs, ps, xs) =>
      (if m.Some? then [m.value.anchorId] else []) + BlockIds(fs) + BlockIds(rs) + BlockIds(ps) + BlockIds(xs)
  }

  /** The module section is shown exactly when the module docstring is
      non-empty, under the file anchor; each item block exactly when its list
      is non-empty, with one item per entry, in declaration order, each under
      `generateAnchorId(kind, name)`. */
  lemma RenderedSections(d: ModuleInfo)
    ensures Render(Some(d)).Document?
    ensures var r := Render(Some(d));
      && (r.moduleSection.Some? <==> d.moduleDocstring != "")
      && (r.moduleSection.Some? ==> r.moduleSection.value.anchorId == FileAnchor(d)
                                    && r.moduleSection.value.heading == d.file)
      && (r.functions.Some? <==> |d.funcInfo| > 0)
      && (r.rules.Some? <==> |d.ruleInfo| > 0)
      && (r.providers.Some? <==> |d.providerInfo| > 0)
      && (r.aspects.Some? <==> |d.aspectInfo| > 0)
      && BlockIds(r.functions) ==
           seq(|d.funcInfo|, i requires 0 <= i < |d.funcInfo| => Anchors.AnchorId("function", d.funcInfo[i].functionName))
      && BlockIds(r.rules) ==
           seq(|d.ruleInfo|, i requires 0 <= i < |d.ruleInfo| => Anchors.AnchorId("rule", d.ruleInfo[i].ruleName))
      && BlockIds(r.providers) ==
           seq(|d.providerInfo|, i requires 0 <= i < |d.providerInfo| => Anchors.AnchorId("provider", d.providerInfo[i].providerName))
      && BlockIds(r.aspects) ==
           seq(|d.aspectInfo|, i requires 0 <= i < |d.aspectInfo| => Anchors.AnchorId("aspect", d.aspectInfo[i].aspectName))
  {
  }

  // ---------------------------------------------------------------------
  // Copy-link button

  /** `${window.location.origin}${window.location.pathname}#${anchorId}` */
  function CopyUrl(origin: string, pathname: string, anchorId: string): string {
    origin + pathname + "#" + anchorId
  }

  /** The fragment of a URL: everything after its first `#`. */
  function FragmentOf(url: string): string {
    if url == [] then []
    else if url[0] == '#' then url[1..]
    else FragmentOf(url[1..])
  }

  /** A copied link leads back to the anchor: its fragment is the anchor id,
      since neither the origin nor the path contains a `#`. */
  lemma {:induction false} CopyUrlFragment(origin: string, pathname: string, anchorId: string)
    requires forall i :: 0 <= i < |origin + pathname| ==> (origin + pathname)[i] != '#'
    ensures FragmentOf(CopyUrl(origin, pathname, anchorId)) == anchorId
    decreases |origin + pathname|
  {
    var base := origin + pathname;
    if base == [] {
      assert CopyUrl(origin, pathname, anchorId) == "#" + anchorId;
    } else {
      var url := CopyUrl(origin, pathname, anchorId);
      assert url[0] == base[0] && url[1..] == base[1..] + "#" + anchorId;
      FragmentAfterPlainPrefix(base[1..], anchorId);
    }
  }

  lemma {:induction false} FragmentAfterPlainPrefix(base: string, anchorId: string)
    requires forall i :: 0 <= i < |base| ==> base[i] != '#'
    ensures FragmentOf(base + "#" + anchorId) == anchorId
    decreases |base|
  {
    if base != [] {
      assert (base + "#" + anchorId)[1..] == base[1..] + "#" + anchorId;
      FragmentAfterPlainPrefix(base[1..], anchorId);
    } else {
      assert base + "#" + anchorId == "#" + anchorId;
    }
  }

  /** `CopyLinkButton`: the `copied` flag, the 2000 ms timers that clear it,
      and the clipboard it writes to. */
  class CopyLinkButton {
    const anchorId: string
    var copied: bool
    var pendingResets: nat           // `setTimeout(() => setCopied(false), 2000)` not yet fired
    var clipboard: Option<string>    // the last text written successfully

    /** The success indicator is never left on without a timer to clear it. */
    ghost predicate Valid()
      reads this
    {
      copied ==> pendingResets > 0
    }

    constructor (anchorId: string)
      ensures Valid()
      ensures this.anchorId == anchorId && !copied && pendingResets == 0 && clipboard == None
    {
      this.anchorId := anchorId;
      copied := false;
      pendingResets := 0;
      clipboard := None;
    }

    /** `copyToClipboard`; `writeSucceeds` is how `navigator.clipboard.writeText` settles.
        A failed write is logged and changes nothing. */
    method Click(origin: string, pathname: string, writeSucceeds: bool)
      requires Valid()
      modifies this
      ensures Valid()
      ensures writeSucceeds ==>
        && copied
        && clipboard == Some(CopyUrl(origin, pathname, anchorId))
        && pendingResets == old(pendingResets) + 1
      ensures !writeSucceeds ==>
        copied == old(copied) && clipboard == old(clipboard) && pendingResets == old(pendingResets)
    {
      var url := CopyUrl(origin, pathname, anchorId);
      if writeSucceeds {
        clipboard := Some(url);
        copied := true;
        pendingResets := pendingResets + 1;
      }
    }

    /** One 2000 ms timer fires. */
    method ResetTimerFired()
      requires Valid() && pendingResets > 0
      modifies this
      ensures Valid()
      ensures !copied && pendingResets == old(pendingResets) - 1 && clipboard == old(clipboard)
    {
      copied := false;
      pendingResets := pendingResets - 1;
    }
  }
}
