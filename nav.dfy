/** The navigation sidebar (components/StardocNav.tsx): its own copy of the
    anchor function, the table of contents it derives from the records, and
    the controller that keeps the highlighted section, the expanded set and
    the URL fragment in step with scrolling, clicks and history navigation.

    The page's DOM is an abstract map from element id to `offsetTop`; every
    `setTimeout` becomes a pending entry that an explicit "timer fired"
    method consumes; `history.pushState` and `location.hash` become the
    `hash` field; `scrollIntoView` appends the target to `scrolledTo`. */
module Nav {
  import opened Basics
  import opened DocInfo
  import Anchors
  import Renderer

  /** The sidebar's `.replace(/^\/+/, '')`. */
  function TrimSlashes(s: string): string {
    if s != [] && s[0] == '/' then TrimSlashes(s[1..]) else s
  }

  /** The sidebar's `.replace(/[^a-zA-Z0-9-_]/g, '-')`. */
  function Dashify(s: string): string {
    if s == [] then []
    else
      var c := s[0];
      var safe := 'a' <= c <= 'z' || 'A' <= c <= 'Z' || '0' <= c <= '9' || c == '-' || c == '_';
      [if safe then c else '-'] + Dashify(s[1..])
  }

  /** The sidebar's `.toLowerCase()` on ASCII. */
  function Lower(s: string): string {
    if s == [] then []
    else [if 'A' <= s[0] <= 'Z' then (s[0] as int + 32) as char else s[0]] + Lower(s[1..])
  }

  /** The sidebar's own `generateAnchorId`, a copy of the renderer's. */
  function AnchorId(kind: string, name: string): string {
    var cleanName := Lower(Dashify(TrimSlashes(name)));
    if kind == "file" then cleanName else kind + "-" + cleanName
  }

  lemma {:induction false} TrimSlashesAgrees(s: string)
    ensures TrimSlashes(s) == Anchors.StripLeadingSlashes(s)
    decreases |s|
  {
    if s != [] && s[0] == '/' {
      TrimSlashesAgrees(s[1..]);
    }
  }

  lemma {:induction false} DashifyAgrees(s: string)
    ensures Dashify(s) == Anchors.ReplaceUnsafe(s)
    decreases |s|
  {
    if s != [] {
      DashifyAgrees(s[1..]);
    }
  }

  lemma {:induction false} LowerAgrees(s: string)
    ensures Lower(s) == Anchors.ToLower(s)
    decreases |s|
  {
    if s != [] {
      LowerAgrees(s[1..]);
    }
  }

  /** The sidebar and the renderer compute the same anchor for every kind and
      name, which is what makes sidebar links land on rendered sections. */
  lemma AnchorsAgree(kind: string, name: string)
    ensures AnchorId(kind, name) == Anchors.AnchorId(kind, name)
  {
    TrimSlashesAgrees(name);
    DashifyAgrees(TrimSlashes(name));
    LowerAgrees(Dashify(TrimSlashes(name)));
  }

  lemma AnchorsAgreeEverywhere()
    ensures forall kind, name :: AnchorId(kind, name) == Anchors.AnchorId(kind, name)
  {
    forall kind, name
      ensures AnchorId(kind, name) == Anchors.AnchorId(kind, name)
    {
      AnchorsAgree(kind, name);
    }
  }

  /** `NavItem`; `children` is empty where the source leaves it undefined. */
  datatype NavItem = NavItem(id: string, caption: string, kind: string, level: nat, children: seq<NavItem>)

  function ChildItem(kind: string, name: string): NavItem {
    NavItem(AnchorId(kind, name), name, kind, 1, [])
  }

  function FunctionItems(fs: seq<FunctionInfo>): seq<NavItem> {
    seq(|fs|, i requires 0 <= i < |fs| => ChildItem("function", fs[i].functionName))
  }

  function RuleItems(rs: seq<RuleInfo>): seq<NavItem> {
    seq(|rs|, i requires 0 <= i < |rs| => ChildItem("rule", rs[i].ruleName))
  }

  function ProviderItems(ps: seq<ProviderInfo>): seq<NavItem> {
    seq(|ps|, i requires 0 <= i < |ps| => ChildItem("provider", ps[i].providerName))
  }

  function AspectItems(xs: seq<AspectInfo>): seq<NavItem> {
    seq(|xs|, i requires 0 <= i < |xs| => ChildItem("aspect", xs[i].aspectName))
  }

  /** One record's top-level entry: functions, then rules, providers and aspects. */
  function FileItem(d: ModuleInfo): NavItem {
    NavItem(AnchorId("file", OrDefault(d.file, "module")), OrDefault(d.file, "Module"), "file", 0,
            FunctionItems(d.funcInfo) + RuleItems(d.ruleInfo) + ProviderItems(d.providerInfo) + AspectItems(d.aspectInfo))
  }

  /** `generateNavStructure(stardocs)`; an absent list is the empty list. */
  function GenerateNavStructure(stardocs: seq<ModuleInfo>): seq<NavItem> {
    if |stardocs| > 0 then seq(|stardocs|, i requires 0 <= i < |stardocs| => FileItem(stardocs[i])) else []
  }

  function Ids(items: seq<NavItem>): seq<string> {
    seq(|items|, i requires 0 <= i < |items| => items[i].id)
  }

  /** Where each part of a four-part concatenation sits. */
  lemma Concat4<T>(a: seq<T>, b: seq<T>, c: seq<T>, d: seq<T>)
    ensures |a + b + c + d| == |a| + |b| + |c| + |d|
    ensures forall j :: 0 <= j < |a| ==> (a + b + c + d)[j] == a[j]
    ensures forall j :: 0 <= j < |b| ==> (a + b + c + d)[|a| + j] == b[j]
    ensures forall j :: 0 <= j < |c| ==> (a + b + c + d)[|a| + |b| + j] == c[j]
    ensures forall j :: 0 <= j < |d| ==> (a + b + c + d)[|a| + |b| + |c| + j] == d[j]
  {
  }

  /** Level-1 entries without children. */
  predicate Leaves(items: seq<NavItem>) {
    forall j :: 0 <= j < |items| ==> items[j].level == 1 && items[j].children == []
  }

  lemma LeavesConcat(a: seq<NavItem>, b: seq<NavItem>)
    requires Leaves(a) && Leaves(b)
    ensures Leaves(a + b)
  {
    forall j | 0 <= j < |a + b|
      ensures (a + b)[j].level == 1 && (a + b)[j].children == []
    {
      if j >= |a| {
        assert (a + b)[j] == b[j - |a|];
      }
    }
  }

  /** A record's file entry is a level-0 entry under the file anchor and
      caption; its children are every function, rule, provider and aspect in
      that order, each a level-1 leaf under the renderer's anchor. */
  lemma FileItemShape(d: ModuleInfo)
    ensures var item := FileItem(d);
      && item.kind == "file" && item.level == 0
      && item.id == Renderer.FileAnchor(d)
      && item.caption == OrDefault(d.file, "Module")
      && |item.children| == |d.funcInfo| + |d.ruleInfo| + |d.providerInfo| + |d.aspectInfo|
      && Leaves(item.children)
  {
    AnchorsAgree("file", OrDefault(d.file, "module"));
    ChildrenAreLeaves(d);
  }

  lemma ChildrenAreLeaves(d: ModuleInfo)
    ensures Leaves(FileItem(d).children)
  {
    var f, r, p, a := FunctionItems(d.funcInfo), RuleItems(d.ruleInfo), ProviderItems(d.providerInfo), AspectItems(d.aspectInfo);
    LeavesConcat(f, r);
    LeavesConcat(f + r, p);
    LeavesConcat(f + r + p, a);
  }

  /** The children appear kind by kind, in declaration order, each named
      after its entity and linked to the renderer's anchor for it. */
  lemma FileItemChildren(d: ModuleInfo)
    ensures var c, nf, nr, np := FileItem(d).children, |d.funcInfo|, |d.ruleInfo|, |d.providerInfo|;
      && |c| == nf + nr + np + |d.aspectInfo|
      && (forall j :: 0 <= j < nf ==>
            c[j] == NavItem(Anchors.AnchorId("function", d.funcInfo[j].functionName),
                            d.funcInfo[j].functionName, "function", 1, []))
      && (forall j :: 0 <= j < nr ==>
            c[nf + j] == NavItem(Anchors.AnchorId("rule", d.ruleInfo[j].ruleName), d.ruleInfo[j].ruleName, "rule", 1, []))
      && (forall j :: 0 <= j < np ==>
            c[nf + nr + j] == NavItem(Anchors.AnchorId("provider", d.providerInfo[j].providerName),
                                      d.providerInfo[j].providerName, "provider", 1, []))
      && (forall j :: 0 <= j < |d.aspectInfo| ==>
            c[nf + nr + np + j] == NavItem(Anchors.AnchorId("aspect", d.aspectInfo[j].aspectName),
                                           d.aspectInfo[j].aspectName, "aspect", 1, []))
  {
    var f, r, p, a := FunctionItems(d.funcInfo), RuleItems(d.ruleInfo), ProviderItems(d.providerInfo), AspectItems(d.aspectInfo);
    var c, nf, nr, np := FileItem(d).children, |d.funcInfo|, |d.ruleInfo|, |d.providerInfo|;
    Concat4(f, r, p, a);
    assert c == f + r + p + a;
    FunctionItemsAt(d.funcInfo);
    RuleItemsAt(d.ruleInfo);
    ProviderItemsAt(d.providerInfo);
    AspectItemsAt(d.aspectInfo);
  }

  lemma FunctionItemsAt(fs: seq<FunctionInfo>)
    ensures |FunctionItems(fs)| == |fs|
    ensures forall j :: 0 <= j < |fs| ==>
      FunctionItems(fs)[j] == NavItem(Anchors.AnchorId("function", fs[j].functionName), fs[j].functionName, "function", 1, [])
  {
    AnchorsAgreeEverywhere();
  }

  lemma RuleItemsAt(rs: seq<RuleInfo>)
    ensures |RuleItems(rs)| == |rs|
    ensures forall j :: 0 <= j < |rs| ==>
      RuleItems(rs)[j] == NavItem(Anchors.AnchorId("rule", rs[j].ruleName), rs[j].ruleName, "rule", 1, [])
  {
    AnchorsAgreeEverywhere();
  }

  lemma ProviderItemsAt(ps: seq<ProviderInfo>)
    ensures |ProviderItems(ps)| == |ps|
    ensures forall j :: 0 <= j < |ps| ==>
      ProviderItems(ps)[j] == NavItem(Anchors.AnchorId("provider", ps[j].providerName), ps[j].providerName, "provider", 1, [])
  {
    AnchorsAgreeEverywhere();
  }

  lemma AspectItemsAt(xs: seq<AspectInfo>)
    ensures |AspectItems(xs)| == |xs|
    ensures forall j :: 0 <= j < |xs| ==>
      AspectItems(xs)[j] == NavItem(Anchors.AnchorId("aspect", xs[j].aspectName), xs[j].aspectName, "aspect", 1, [])
  {
    AnchorsAgreeEverywhere();
  }

  /** One file entry per record, in input order; none for no records. */
  lemma NavStructureShape(stardocs: seq<ModuleInfo>)
    ensures |GenerateNavStructure(stardocs)| == |stardocs|
    ensures forall i :: 0 <= i < |stardocs| ==>
      GenerateNavStructure(stardocs)[i].id == Renderer.FileAnchor(stardocs[i])
      && GenerateNavStructure(stardocs)[i].caption == OrDefault(stardocs[i].file, "Module")
      && GenerateNavStructure(stardocs)[i].children == FileItem(stardocs[i]).children
  {
    AnchorsAgreeEverywhere();
  }

  lemma IdsConcat(a: seq<NavItem>, b: seq<NavItem>)
    ensures Ids(a + b) == Ids(a) + Ids(b)
  {
  }

  lemma FunctionIdsRendered(d: ModuleInfo)
    ensures Ids(FunctionItems(d.funcInfo)) == Renderer.BlockIds(Renderer.Render(Some(d)).functions)
  {
    AnchorsAgreeEverywhere();
    Renderer.RenderedSections(d);
  }

  lemma RuleIdsRendered(d: ModuleInfo)
    ensures Ids(RuleItems(d.ruleInfo)) == Renderer.BlockIds(Renderer.Render(Some(d)).rules)
  {
    AnchorsAgreeEverywhere();
    Renderer.RenderedSections(d);
  }

  lemma ProviderIdsRendered(d: ModuleInfo)
    ensures Ids(ProviderItems(d.providerInfo)) == Renderer.BlockIds(Renderer.Render(Some(d)).providers)
  {
    AnchorsAgreeEverywhere();
    Renderer.RenderedSections(d);
  }

  lemma AspectIdsRendered(d: ModuleInfo)
    ensures Ids(AspectItems(d.aspectInfo)) == Renderer.BlockIds(Renderer.Render(Some(d)).aspects)
  {
    AnchorsAgreeEverywhere();
    Renderer.RenderedSections(d);
  }

  /** The module section's id is the file entry's id, present only with module text. */
  lemma ModuleIdRendered(d: ModuleInfo)
    ensures Renderer.Render(Some(d)).Document?
    ensures var m := Renderer.Render(Some(d)).moduleSection;
      (if m.Some? then [m.value.anchorId] else []) == (if d.moduleDocstring != "" then [FileItem(d).id] else [])
  {
    AnchorsAgree("file", OrDefault(d.file, "module"));
    Renderer.RenderedSections(d);
  }

  lemma Assoc5<T>(h: seq<T>, a: seq<T>, b: seq<T>, c: seq<T>, d: seq<T>)
    ensures h + a + b + c + d == h + (a + b + c + d)
  {
  }

  /** Cross-linking: the elements the renderer emits for a record carry
      exactly the ids of the record's sidebar entry, in the same order,
      except that the file entry has an element only when the module
      docstring is non-empty. */
  lemma NavMatchesRenderedIds(d: ModuleInfo)
    ensures FileItem(d).id == Renderer.FileAnchor(d)
    ensures Renderer.ElementIds(Renderer.Render(Some(d))) ==
              (if d.moduleDocstring != "" then [FileItem(d).id] else []) + Ids(FileItem(d).children)
  {
    AnchorsAgree("file", OrDefault(d.file, "module"));
    var f, r, p, a := FunctionItems(d.funcInfo), RuleItems(d.ruleInfo), ProviderItems(d.providerInfo), AspectItems(d.aspectInfo);
    IdsConcat(f, r);
    IdsConcat(f + r, p);
    IdsConcat(f + r + p, a);
    ModuleIdRendered(d);
    FunctionIdsRendered(d);
    RuleIdsRendered(d);
    ProviderIdsRendered(d);
    AspectIdsRendered(d);
    var page := Renderer.Render(Some(d));
    var m := page.moduleSection;
    Assoc5(if m.Some? then [m.value.anchorId] else [], Ids(f), Ids(r), Ids(p), Ids(a));
  }

  /** The concatenation of a list of sequences. */
  function Flat<T>(ss: seq<seq<T>>): seq<T> {
    if ss == [] then [] else ss[0] + Flat(ss[1..])
  }

  lemma {:induction false} FlatMember<T>(ss: seq<seq<T>>, i: int, x: T)
    requires 0 <= i < |ss| && x in ss[i]
    ensures x in Flat(ss)
    decreases i
  {
    if i > 0 {
      assert ss[1..][i - 1] == ss[i];
      FlatMember(ss[1..], i - 1, x);
    }
  }

  /** The element ids of the whole page: every record rendered in order. */
  function PageIds(stardocs: seq<ModuleInfo>): seq<string> {
    Flat(seq(|stardocs|, i requires 0 <= i < |stardocs| => Renderer.ElementIds(Renderer.Render(Some(stardocs[i])))))
  }

  /** Every element of every record is on the page. */
  lemma RecordIdsOnPage(stardocs: seq<ModuleInfo>, i: int, x: string)
    requires 0 <= i < |stardocs|
    requires x in Renderer.ElementIds(Renderer.Render(Some(stardocs[i])))
    ensures x in PageIds(stardocs)
  {
    var ss := seq(|stardocs|, i requires 0 <= i < |stardocs| => Renderer.ElementIds(Renderer.Render(Some(stardocs[i]))));
    FlatMember(ss, i, x);
  }

  /** Each entry of a list of items names a member of any id sequence that ends with their ids. */
  lemma IdsMembers(ids: seq<string>, head: seq<string>, items: seq<NavItem>)
    requires ids == head + Ids(items)
    ensures forall j :: 0 <= j < |items| ==> items[j].id in ids
  {
    forall j | 0 <= j < |items|
      ensures items[j].id in ids
    {
      assert ids[|head| + j] == Ids(items)[j];
    }
  }

  /** Within one record: every child of its entry, and the entry itself when
      there is module text, names one of the record's rendered elements. */
  lemma NavTargetsInRecord(d: ModuleInfo)
    ensures forall j :: 0 <= j < |FileItem(d).children| ==>
              FileItem(d).children[j].id in Renderer.ElementIds(Renderer.Render(Some(d)))
    ensures d.moduleDocstring != "" ==> FileItem(d).id in Renderer.ElementIds(Renderer.Render(Some(d)))
  {
    NavMatchesRenderedIds(d);
    var item := FileItem(d);
    var ids := Renderer.ElementIds(Renderer.Render(Some(d)));
    var head := if d.moduleDocstring != "" then [item.id] else [];
    IdsMembers(ids, head, item.children);
    if d.moduleDocstring != "" {
      assert ids[0] == item.id;
    }
  }

  /** Every sidebar child, and every file entry whose record has module text,
      names an element of the rendered page. */
  lemma NavTargetsOnPage(stardocs: seq<ModuleInfo>, i: int)
    requires 0 <= i < |stardocs|
    ensures var item := GenerateNavStructure(stardocs)[i];
      && (forall j :: 0 <= j < |item.children| ==> item.children[j].id in PageIds(stardocs))
      && (stardocs[i].moduleDocstring != "" ==> item.id in PageIds(stardocs))
  {
    var item := FileItem(stardocs[i]);
    assert GenerateNavStructure(stardocs)[i] == item;
    NavTargetsInRecord(stardocs[i]);
    forall j | 0 <= j < |item.children|
      ensures item.children[j].id in PageIds(stardocs)
    {
      RecordIdsOnPage(stardocs, i, item.children[j].id);
    }
    if stardocs[i].moduleDocstring != "" {
      RecordIdsOnPage(stardocs, i, item.id);
    }
  }

  // ---------------------------------------------------------------------
  // The scroll handler's section list and scan

  /** `navStructure.flatMap(item => [item, ...children.flatMap(child => [child, ...grandchildren])])` */
  function Flatten(items: seq<NavItem>): seq<NavItem> {
    if items == [] then [] else [items[0]] + FlattenChildren(items[0].children) + Flatten(items[1..])
  }

  function FlattenChildren(children: seq<NavItem>): seq<NavItem> {
    if children == [] then [] else [children[0]] + children[0].children + FlattenChildren(children[1..])
  }

  /** Children without children of their own flatten to themselves, so the
      generated sidebar flattens to each file entry followed by its children. */
  lemma {:induction false} FlattenLeaves(children: seq<NavItem>)
    requires forall j :: 0 <= j < |children| ==> children[j].children == []
    ensures FlattenChildren(children) == children
    decreases |children|
  {
    if children != [] {
      FlattenLeaves(children[1..]);
      assert children == [children[0]] + children[1..];
    }
  }

  /** The entries `renderNavItem` shows, top to bottom: an entry, then its
      children only when it has some and is expanded. */
  function VisibleItems(items: seq<NavItem>, expanded: set<string>): seq<NavItem> {
    if items == [] then []
    else
      var item := items[0];
      [item]
      + (if |item.children| > 0 && item.id in expanded then VisibleItems(item.children, expanded) else [])
      + VisibleItems(items[1..], expanded)
  }

  /** Leaves show exactly themselves. */
  lemma {:induction false} VisibleLeaves(items: seq<NavItem>, expanded: set<string>)
    requires forall j :: 0 <= j < |items| ==> items[j].children == []
    ensures VisibleItems(items, expanded) == items
    decreases |items|
  {
    if items != [] {
      VisibleLeaves(items[1..], expanded);
      assert items == [items[0]] + items[1..];
    }
  }

  /** A file entry shows its children exactly when it is expanded, and
      toggling it flips whether they are shown. */
  lemma ExpandedShowsChildren(d: ModuleInfo, expanded: set<string>)
    ensures var item := FileItem(d);
      VisibleItems([item], expanded) ==
        [item] + (if item.id in expanded && |item.children| > 0 then item.children else [])
    ensures var item := FileItem(d);
      |item.children| > 0 ==>
        (|VisibleItems([item], Toggled(expanded, item.id))| > 1 <==> |VisibleItems([item], expanded)| == 1)
  {
    var item := FileItem(d);
    FileItemShape(d);
    VisibleLeaves(item.children, expanded);
    VisibleLeaves(item.children, Toggled(expanded, item.id));
    assert [item][1..] == [];
  }

  /** The scroll handler's section order over the generated sidebar: each
      record's file entry followed by its children, record by record. */
  lemma {:induction false} FlattenNav(stardocs: seq<ModuleInfo>)
    ensures Flatten(GenerateNavStructure(stardocs)) ==
              Flat(seq(|stardocs|, i requires 0 <= i < |stardocs| => [FileItem(stardocs[i])] + FileItem(stardocs[i]).children))
    decreases |stardocs|
  {
    var ss := seq(|stardocs|, i requires 0 <= i < |stardocs| => [FileItem(stardocs[i])] + FileItem(stardocs[i]).children);
    if stardocs != [] {
      var rest := stardocs[1..];
      var nav := GenerateNavStructure(stardocs);
      var item := FileItem(stardocs[0]);
      assert nav[0] == item;
      assert nav[1..] == GenerateNavStructure(rest);
      FlattenNav(rest);
      ChildrenAreLeaves(stardocs[0]);
      FlattenLeaves(item.children);
      assert Flatten(nav) == [item] + item.children + Flatten(GenerateNavStructure(rest));
      assert ss[0] == [item] + item.children;
      assert ss[1..] == seq(|rest|, i requires 0 <= i < |rest| => [FileItem(rest[i])] + FileItem(rest[i]).children);
    }
  }

  const HeaderOffset: int := 100

  /** An entry whose element exists and starts at or above the scroll position. */
  predicate Started(item: NavItem, dom: map<string, int>, position: int) {
    item.id in dom && dom[item.id] <= position
  }

  /** The index of the last started entry, or -1 when none has started. */
  function LastStarted(sections: seq<NavItem>, dom: map<string, int>, position: int): (k: int)
    ensures -1 <= k < |sections|
    ensures k >= 0 ==> Started(sections[k], dom, position)
    ensures forall j :: k < j < |sections| ==> !Started(sections[j], dom, position)
    decreases |sections|
  {
    if sections == [] then -1
    else if Started(sections[|sections| - 1], dom, position) then |sections| - 1
    else LastStarted(sections[..|sections| - 1], dom, position)
  }

  /** The reverse `for` loop of the scroll handler, with its `break`. */
  method FindLastStarted(sections: seq<NavItem>, dom: map<string, int>, position: int) returns (k: int)
    ensures k == LastStarted(sections, dom, position)
  {
    k := |sections| - 1;
    while k >= 0
      invariant -1 <= k < |sections|
      invariant forall j :: k < j < |sections| ==> !Started(sections[j], dom, position)
    {
      if Started(sections[k], dom, position) {
        break;
      }
      k := k - 1;
    }
  }

  /** `location.hash.slice(1)` */
  function HashValue(hash: string): string {
    if |hash| > 0 then hash[1..] else ""
  }

  /** `toggleSection`'s new set: membership of `id` flips, nothing else changes. */
  function Toggled(s: set<string>, id: string): (r: set<string>)
    ensures id in r <==> id !in s
    ensures forall other :: other != id ==> (other in r <==> other in s)
  {
    if id in s then s - {id} else s + {id}
  }

  lemma ToggleTwice(s: set<string>, id: string)
    ensures Toggled(Toggled(s, id), id) == s
  {
  }

  // ---------------------------------------------------------------------
  // The controller

  /** `StardocNav`'s state and event handlers. */
  class StardocNav {
    const navStructure: seq<NavItem>
    const dom: map<string, int>             // element id -> offsetTop
    var activeSection: string
    var expandedSections: set<string>
    var isUserNavigating: bool
    var hash: string                        // location.hash: "" or "#..."
    var scrolledTo: seq<string>             // scrollIntoView targets, oldest first
    var pendingNavResets: nat               // 1000 ms timers that clear isUserNavigating
    var pendingClickScrolls: seq<string>    // 100 ms timers of clicks on entries with children
    var pendingHashScrolls: seq<string>     // 100 ms timers of the hash handler

    /** The navigation guard is never left set without a timer to clear it. */
    ghost predicate Valid()
      reads this
    {
      isUserNavigating ==> pendingNavResets > 0
    }

    /** What `scrollToSection(sectionId)` does to the fields it touches. */
    twostate predicate ScrolledToSection(sectionId: string)
      reads this
    {
      if sectionId in dom then
        && isUserNavigating
        && activeSection == sectionId
        && hash == "#" + sectionId
        && scrolledTo == old(scrolledTo) + [sectionId]
        && pendingNavResets == old(pendingNavResets) + 1
      else
        && isUserNavigating == old(isUserNavigating)
        && activeSection == old(activeSection)
        && hash == old(hash)
        && scrolledTo == old(scrolledTo)
        && pendingNavResets == old(pendingNavResets)
    }

    /** Mounting: the state starts empty and the hash handler runs once. */
    constructor (stardocs: seq<ModuleInfo>, dom: map<string, int>, hash: string)
      ensures Valid()
      ensures navStructure == GenerateNavStructure(stardocs) && this.dom == dom && this.hash == hash
      ensures expandedSections == {} && !isUserNavigating && scrolledTo == []
      ensures pendingNavResets == 0 && pendingClickScrolls == []
      ensures activeSection == HashValue(hash)
      ensures pendingHashScrolls == if HashValue(hash) != "" then [HashValue(hash)] else []
    {
      navStructure := GenerateNavStructure(stardocs);
      this.dom := dom;
      this.hash := hash;
      activeSection := "";
      expandedSections := {};
      isUserNavigating := false;
      scrolledTo := [];
      pendingNavResets := 0;
      pendingClickScrolls := [];
      pendingHashScrolls := [];
      new;
      HandleHashChange();
    }

    /** `handleHashChange`: a non-empty fragment becomes the active section
        and a smooth scroll to it is scheduled; an empty one changes nothing. */
    method HandleHashChange()
      requires Valid()
      modifies this
      ensures Valid()
      ensures var h := HashValue(old(hash));
        && activeSection == (if h != "" then h else old(activeSection))
        && pendingHashScrolls == old(pendingHashScrolls) + (if h != "" then [h] else [])
      ensures hash == old(hash) && expandedSections == old(expandedSections)
      ensures isUserNavigating == old(isUserNavigating) && scrolledTo == old(scrolledTo)
      ensures pendingNavResets == old(pendingNavResets) && pendingClickScrolls == old(pendingClickScrolls)
    {
      var h := HashValue(hash);
      if h != "" {
        activeSection := h;
        pendingHashScrolls := pendingHashScrolls + [h];
      }
    }

    /** A `popstate` event: the browser moves to `newHash`, then the hash handler runs. */
    method PopState(newHash: string)
      requires Valid()
      modifies this
      ensures Valid()
      ensures hash == newHash
      ensures var h := HashValue(newHash);
        && activeSection == (if h != "" then h else old(activeSection))
        && pendingHashScrolls == old(pendingHashScrolls) + (if h != "" then [h] else [])
      ensures expandedSections == old(expandedSections) && isUserNavigating == old(isUserNavigating)
      ensures scrolledTo == old(scrolledTo) && pendingNavResets == old(pendingNavResets)
      ensures pendingClickScrolls == old(pendingClickScrolls)
    {
      hash := newHash;
      HandleHashChange();
    }

    /** The hash handler's 100 ms timer: a smooth scroll when the element exists. */
    method HashScrollTimerFired()
      requires Valid() && |pendingHashScrolls| > 0
      modifies this
      ensures Valid()
      ensures var id := old(pendingHashScrolls)[0];
        scrolledTo == old(scrolledTo) + (if id in dom then [id] else [])
      ensures pendingHashScrolls == old(pendingHashScrolls)[1..]
      ensures activeSection == old(activeSection) && expandedSections == old(expandedSections)
      ensures isUserNavigating == old(isUserNavigating) && hash == old(hash)
      ensures pendingNavResets == old(pendingNavResets) && pendingClickScrolls == old(pendingClickScrolls)
    {
      var id := pendingHashScrolls[0];
      pendingHashScrolls := pendingHashScrolls[1..];
      if id in dom {
        scrolledTo := scrolledTo + [id];
      }
    }

    /** `scrollToSection(sectionId)`: when the element exists, raise the
        guard, mark the section, jump to it, push `#sectionId` and schedule
        the guard's release; otherwise nothing happens. */
    method ScrollToSection(sectionId: string)
      requires Valid()
      modifies this
      ensures Valid()
      ensures ScrolledToSection(sectionId)
      ensures expandedSections == old(expandedSections)
      ensures pendingClickScrolls == old(pendingClickScrolls) && pendingHashScrolls == old(pendingHashScrolls)
    {
      if sectionId in dom {
        isUserNavigating := true;
        activeSection := sectionId;
        scrolledTo := scrolledTo + [sectionId];
        hash := "#" + sectionId;
        pendingNavResets := pendingNavResets + 1;
      }
    }

    /** The 1000 ms timer of `scrollToSection`: the guard is released. */
    method NavResetTimerFired()
      requires Valid() && pendingNavResets > 0
      modifies this
      ensures Valid()
      ensures !isUserNavigating && pendingNavResets == old(pendingNavResets) - 1
      ensures activeSection == old(activeSection) && expandedSections == old(expandedSections)
      ensures hash == old(hash) && scrolledTo == old(scrolledTo)
      ensures pendingClickScrolls == old(pendingClickScrolls) && pendingHashScrolls == old(pendingHashScrolls)
    {
      isUserNavigating := false;
      pendingNavResets := pendingNavResets - 1;
    }

    /** `toggleSection(sectionId)` */
    method ToggleSection(sectionId: string)
      requires Valid()
      modifies this
      ensures Valid()
      ensures expandedSections == Toggled(old(expandedSections), sectionId)
      ensures activeSection == old(activeSection) && isUserNavigating == old(isUserNavigating)
      ensures hash == old(hash) && scrolledTo == old(scrolledTo) && pendingNavResets == old(pendingNavResets)
      ensures pendingClickScrolls == old(pendingClickScrolls) && pendingHashScrolls == old(pendingHashScrolls)
    {
      expandedSections := Toggled(expandedSections, sectionId);
    }

    /** `handleNavItemClick(item)`: an entry with children toggles its
        expansion and scrolls after 100 ms; a leaf scrolls at once. */
    method HandleNavItemClick(item: NavItem)
      requires Valid()
      modifies this
      ensures Valid()
      ensures |item.children| > 0 ==>
        && expandedSections == Toggled(old(expandedSections), item.id)
        && pendingClickScrolls == old(pendingClickScrolls) + [item.id]
        && activeSection == old(activeSection) && isUserNavigating == old(isUserNavigating)
        && hash == old(hash) && scrolledTo == old(scrolledTo) && pendingNavResets == old(pendingNavResets)
      ensures |item.children| == 0 ==>
        && ScrolledToSection(item.id)
        && expandedSections == old(expandedSections)
        && pendingClickScrolls == old(pendingClickScrolls)
      ensures pendingHashScrolls == old(pendingHashScrolls)
    {
      if |item.children| > 0 {
        ToggleSection(item.id);
        pendingClickScrolls := pendingClickScrolls + [item.id];
      } else {
        ScrollToSection(item.id);
      }
    }

    /** The 100 ms timer of a click on an entry with children. */
    method ClickScrollTimerFired()
      requires Valid() && |pendingClickScrolls| > 0
      modifies this
      ensures Valid()
      ensures pendingClickScrolls == old(pendingClickScrolls)[1..]
      ensures ScrolledToSection(old(pendingClickScrolls)[0])
      ensures expandedSections == old(expandedSections) && pendingHashScrolls == old(pendingHashScrolls)
    {
      var id := pendingClickScrolls[0];
      pendingClickScrolls := pendingClickScrolls[1..];
      ScrollToSection(id);
    }

    /** `handleScroll` at vertical position `scrollY`: ignored while the guard
        is up; otherwise the last started entry, in flattened order, becomes
        the active section, and nothing changes when none has started. */
    method HandleScroll(scrollY: int)
      requires Valid()
      modifies this
      ensures Valid()
      ensures old(isUserNavigating) ==> activeSection == old(activeSection)
      ensures !old(isUserNavigating) ==>
        var sections := Flatten(navStructure);
        var k := LastStarted(sections, dom, scrollY + HeaderOffset);
        activeSection == (if k >= 0 then sections[k].id else old(activeSection))
      ensures expandedSections == old(expandedSections) && isUserNavigating == old(isUserNavigating)
      ensures hash == old(hash) && scrolledTo == old(scrolledTo) && pendingNavResets == old(pendingNavResets)
      ensures pendingClickScrolls == old(pendingClickScrolls) && pendingHashScrolls == old(pendingHashScrolls)
    {
      if isUserNavigating {
        return;
      }
      var sections := Flatten(navStructure);
      var k := FindLastStarted(sections, dom, scrollY + HeaderOffset);
      if k >= 0 {
        activeSection := sections[k].id;
      }
    }
  }

  /** Programmatic navigation to an existing section marks it at once and
      keeps it marked against any scroll events until the settle timer fires;
      afterwards scrolling recomputes the active section again. */
  method NavigationHoldsAgainstScrolling(stardocs: seq<ModuleInfo>, dom: map<string, int>,
                                          target: string, scrolls: seq<int>, finalScroll: int)
    returns (heldSection: string, afterSettle: string)
    requires target in dom
    ensures heldSection == target
    ensures var sections := Flatten(GenerateNavStructure(stardocs));
      var k := LastStarted(sections, dom, finalScroll + HeaderOffset);
      afterSettle == (if k >= 0 then sections[k].id else target)
  {
    var nav := new StardocNav(stardocs, dom, "");
    nav.ScrollToSection(target);
    var i := 0;
    while i < |scrolls|
      invariant 0 <= i <= |scrolls|
      invariant nav.Valid() && nav.isUserNavigating && nav.activeSection == target
      invariant nav.pendingNavResets == 1
      invariant nav.navStructure == GenerateNavStructure(stardocs) && nav.dom == dom
    {
      nav.HandleScroll(scrolls[i]);
      i := i + 1;
    }
    heldSection := nav.activeSection;
    nav.NavResetTimerFired();
    nav.HandleScroll(finalScroll);
    afterSettle := nav.activeSection;
  }
}
