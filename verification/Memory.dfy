/** The memory of a repository: what is remembered, what is forgotten, and what fits in a prompt. */
module Memory {
  import opened Common

  datatype Category = Architecture | Convention | Pattern | FileMap | Gotcha | Learning | Unlisted(name: string)

  datatype Entry = Entry(id: string, category: Category, content: string, usedCount: int)

  const MAX_MEMORIES := 100
  const MAX_PROMPT := 8000

  predicate DistinctContents(l: seq<Entry>) {
    forall i, j :: 0 <= i < j < |l| ==> l[i].content != l[j].content
  }

  predicate HasContent(l: seq<Entry>, content: string) {
    exists i :: 0 <= i < |l| && l[i].content == content
  }

  predicate Valid(l: seq<Entry>, max: nat) {
    DistinctContents(l) && |l| <= max
  }

  // ---------------------------------------------------------------- adding and forgetting

  function Without(l: seq<Entry>, k: nat): seq<Entry>
    requires k < |l|
  {
    l[..k] + l[k + 1..]
  }

  // The first of the least used entries.
  predicate IsLeastUsed(l: seq<Entry>, k: nat) {
    && k < |l|
    && (forall i :: 0 <= i < k ==> l[i].usedCount > l[k].usedCount)
    && (forall i :: k <= i < |l| ==> l[i].usedCount >= l[k].usedCount)
  }

  function LeastUsed(l: seq<Entry>): (k: nat)
    requires l != []
    ensures k < |l|
  {
    if |l| == 1 then 0 else
      var k := LeastUsed(l[..|l| - 1]);
      if l[|l| - 1].usedCount < l[k].usedCount then |l| - 1 else k
  }

  lemma {:induction false} LeastUsedIs(l: seq<Entry>)
    requires l != []
    ensures IsLeastUsed(l, LeastUsed(l))
    decreases |l|
  {
    if |l| > 1 {
      LeastUsedIs(l[..|l| - 1]);
    }
  }

  lemma OneLeastUsed(l: seq<Entry>, a: nat, b: nat)
    requires IsLeastUsed(l, a) && IsLeastUsed(l, b)
    ensures a == b
  {
    var x, y := l[a].usedCount, l[b].usedCount;
  }

  function Evicted(l: seq<Entry>, max: nat): seq<Entry> {
    if |l| <= max then l else Without(l, LeastUsed(l))
  }

  function Added(l: seq<Entry>, e: Entry, max: nat): seq<Entry> {
    if HasContent(l, e.content) then l else Evicted(l + [e], max)
  }

  function Marked(l: seq<Entry>, ids: set<string>): seq<Entry> {
    seq(|l|, i requires 0 <= i < |l| => if l[i].id in ids then l[i].(usedCount := l[i].usedCount + 1) else l[i])
  }

  // Whose count goes up: exactly the entries with these identifiers, by one, and nothing else changes.
  lemma MarkedIs(l: seq<Entry>, ids: set<string>, i: nat)
    requires i < |l|
    ensures |Marked(l, ids)| == |l|
    ensures var a, b := l[i], Marked(l, ids)[i];
      && b.id == a.id && b.category == a.category && b.content == a.content
      && b.usedCount - a.usedCount == if a.id in ids then 1 else 0
  {
  }

  // A known content changes nothing; a new entry goes to the end, and if there are too many then, one
  // that was used least goes.
  lemma AddedIs(l: seq<Entry>, e: Entry, max: nat)
    ensures HasContent(l, e.content) ==> Added(l, e, max) == l
    ensures !HasContent(l, e.content) && |l| < max ==> Added(l, e, max) == l + [e]
    ensures !HasContent(l, e.content) && |l| >= max ==>
      exists k: nat :: IsLeastUsed(l + [e], k) && Added(l, e, max) == (l + [e])[..k] + (l + [e])[k + 1..]
  {
    LeastUsedIs(l + [e]);
    assert IsLeastUsed(l + [e], LeastUsed(l + [e]));
  }

  datatype Op = Add(entry: Entry) | MarkUsed(ids: set<string>)

  function Apply(l: seq<Entry>, op: Op, max: nat): seq<Entry> {
    match op
    case Add(e) => Added(l, e, max)
    case MarkUsed(ids) => Marked(l, ids)
  }

  function ApplyAll(l: seq<Entry>, ops: seq<Op>, max: nat): seq<Entry>
    decreases |ops|
  {
    if ops == [] then l else ApplyAll(Apply(l, ops[0], max), ops[1..], max)
  }

  lemma EvictKeepsValid(l: seq<Entry>, max: nat)
    requires DistinctContents(l) && |l| <= max + 1
    ensures Valid(Evicted(l, max), max)
  {
    if |l| > max {
      WithoutKeepsDistinct(l, LeastUsed(l));
    }
  }

  lemma WithoutKeepsDistinct(l: seq<Entry>, k: nat)
    requires DistinctContents(l) && k < |l|
    ensures DistinctContents(Without(l, k))
  {
    var after := Without(l, k);
    assert forall i :: 0 <= i < |after| ==> after[i] == if i < k then l[i] else l[i + 1];
  }

  lemma AppendKeepsDistinct(l: seq<Entry>, e: Entry)
    requires DistinctContents(l) && !HasContent(l, e.content)
    ensures DistinctContents(l + [e])
  {
    forall i | 0 <= i < |l|
      ensures l[i].content != e.content
    {
    }
  }

  lemma {:induction false} RunKeepsValid(l: seq<Entry>, ops: seq<Op>, max: nat)
    requires Valid(l, max)
    ensures Valid(ApplyAll(l, ops, max), max)
    decreases |ops|
  {
    if ops != [] {
      if ops[0].Add? && !HasContent(l, ops[0].entry.content) {
        AppendKeepsDistinct(l, ops[0].entry);
        EvictKeepsValid(l + [ops[0].entry], max);
      }
      RunKeepsValid(Apply(l, ops[0], max), ops[1..], max);
    }
  }

  // A new entry is forgotten at once exactly if the memory is full and everything in it has been
  // used more often.
  lemma ForgottenAtOnceIff(l: seq<Entry>, e: Entry, max: nat)
    requires !HasContent(l, e.content)
    ensures !HasContent(Added(l, e, max), e.content) <==>
      |l| >= max && forall i :: 0 <= i < |l| ==> l[i].usedCount > e.usedCount
  {
    var all, after := l + [e], Added(l, e, max);
    LeastUsedIs(all);
    var k := LeastUsed(all);
    if |l| >= max {
      if k == |l| {
        assert after == l;
        assert forall i :: 0 <= i < |l| ==> all[i].usedCount > all[k].usedCount && all[i] == l[i];
      } else {
        assert after[|l| - 1] == e;
        assert all[|l|].usedCount >= all[k].usedCount && all[k] == l[k];
      }
    } else {
      assert after[|l|] == e;
    }
  }

  // A memory loaded with too many entries never gets smaller.
  lemma {:induction false} OversizeNeverShrinks(l: seq<Entry>, ops: seq<Op>, max: nat)
    requires |l| >= max
    ensures |ApplyAll(l, ops, max)| == |l|
    decreases |ops|
  {
    if ops != [] {
      OversizeNeverShrinks(Apply(l, ops[0], max), ops[1..], max);
    }
  }

  // ---------------------------------------------------------------- the prompt

  // How a prompt is laid out: what comes first, the categories in order and their headings, and
  // the budget in bytes.
  datatype Layout = Layout(preamble: string, order: seq<Category>, titles: map<Category, string>, limit: nat)

  const LAYOUT := Layout(
    "## Repository Memory\n\n" +
    "These are learnings from previous work on this repository. Use them to work more efficiently.\n\n",
    [Architecture, Convention, Pattern, FileMap, Gotcha, Learning],
    map[Architecture := "Architecture", Convention := "Conventions", Pattern := "Patterns", FileMap := "Key Files",
        Gotcha := "Gotchas", Learning := "Learnings"],
    MAX_PROMPT)

  function Header(y: Layout, c: Category): string {
    "### " + (if c in y.titles then y.titles[c] else "") + "\n"
  }

  function Line(e: Entry): string {
    "- " + e.content + "\n"
  }

  // The entries of one category that are shown, and how.
  datatype Section = Section(category: Category, shown: seq<Entry>, text: string)

  function InCategory(l: seq<Entry>, c: Category): seq<Entry> {
    if l == [] then [] else
      InCategory(l[..|l| - 1], c) + if l[|l| - 1].category == c then [l[|l| - 1]] else []
  }

  function Lines(l: seq<Entry>): string {
    if l == [] then "" else Line(l[0]) + Lines(l[1..])
  }

  // How many lines fit when `size` bytes are taken already.
  function Fitting(l: seq<Entry>, size: nat, limit: nat): (k: nat)
    ensures k <= |l|
    decreases |l|
  {
    if l == [] || size + |Line(l[0])| > limit then 0
    else 1 + Fitting(l[1..], size + |Line(l[0])|, limit)
  }

  function Show(y: Layout, c: Category, shown: seq<Entry>): Section {
    Section(c, shown, Header(y, c) + Lines(shown) + "\n")
  }

  function Join(sections: seq<Section>): string {
    if sections == [] then "" else sections[0].text + Join(sections[1..])
  }

  function FirstSection(y: Layout, l: seq<Entry>, c: Category, size: nat): Section {
    var mine := InCategory(l, c);
    Show(y, c, mine[..Fitting(mine, size + |Header(y, c)|, y.limit)])
  }

  // A category without entries is left out; the first heading that does not fit ends the prompt.
  function Sections(y: Layout, l: seq<Entry>, cats: seq<Category>, size: nat): seq<Section>
    decreases |cats|
  {
    if cats == [] then []
    else if InCategory(l, cats[0]) == [] then Sections(y, l, cats[1..], size)
    else if size + |Header(y, cats[0])| > y.limit then []
    else
      var s := FirstSection(y, l, cats[0], size);
      [s] + Sections(y, l, cats[1..], size + |s.text|)
  }

  function Prompt(y: Layout, l: seq<Entry>): string {
    if l == [] then "" else y.preamble + Join(Sections(y, l, y.order, |y.preamble|))
  }

  // The lines taken fit; and the first one left out does not.
  lemma {:induction false} FittingIsMost(l: seq<Entry>, size: nat, limit: nat)
    requires size <= limit
    ensures size + |Lines(l[..Fitting(l, size, limit)])| <= limit
    ensures var k := Fitting(l, size, limit); k < |l| ==> size + |Lines(l[..k + 1])| > limit
    decreases |l|
  {
    if l != [] && size + |Line(l[0])| <= limit {
      var k := Fitting(l[1..], size + |Line(l[0])|, limit);
      FittingIsMost(l[1..], size + |Line(l[0])|, limit);
      assert l[..k + 1][1..] == l[1..][..k];
      if k < |l| - 1 {
        assert l[..k + 2][1..] == l[1..][..k + 1];
      }
    }
  }

  lemma FirstSectionFits(y: Layout, l: seq<Entry>, c: Category, size: nat)
    requires size + |Header(y, c)| <= y.limit
    ensures size + |FirstSection(y, l, c, size).text| <= y.limit + 1
  {
    FittingIsMost(InCategory(l, c), size + |Header(y, c)|, y.limit);
  }

  // How the sections from the k-th category on come about; `left` are those sections.
  lemma NoSection(y: Layout, l: seq<Entry>, cats: seq<Category>, k: nat, size: nat, left: seq<Section>)
    requires k < |cats| && left == Sections(y, l, cats[k..], size)
    ensures InCategory(l, cats[k]) == [] ==> left == Sections(y, l, cats[k + 1..], size)
    ensures InCategory(l, cats[k]) != [] && size + |Header(y, cats[k])| > y.limit ==> left == []
  {
    assert cats[k..][0] == cats[k] && cats[k..][1..] == cats[k + 1..];
  }

  lemma NextSection(y: Layout, l: seq<Entry>, cats: seq<Category>, k: nat, size: nat, left: seq<Section>)
    requires k < |cats| && left == Sections(y, l, cats[k..], size)
    requires InCategory(l, cats[k]) != [] && size + |Header(y, cats[k])| <= y.limit
    ensures left != [] && left[1..] == Sections(y, l, cats[k + 1..], size + |left[0].text|)
    ensures left[0] == FirstSection(y, l, cats[k], size)
  {
    assert cats[k..][0] == cats[k] && cats[k..][1..] == cats[k + 1..];
  }

  lemma SectionsStep(y: Layout, l: seq<Entry>, cats: seq<Category>, size: nat, all: seq<Section>)
    requires cats != [] && all == Sections(y, l, cats, size) && all != []
    ensures all == Sections(y, l, cats[1..], size)
      || (size + |all[0].text| <= y.limit + 1 && all[1..] == Sections(y, l, cats[1..], size + |all[0].text|))
  {
    assert cats[0..] == cats;
    NoSection(y, l, cats, 0, size, all);
    if InCategory(l, cats[0]) != [] {
      NextSection(y, l, cats, 0, size, all);
      FirstSectionFits(y, l, cats[0], size);
    }
  }

  // The budget is exceeded by one byte at most: the blank line after a section is not counted
  // beforehand.
  lemma {:induction false} SectionsFit(y: Layout, l: seq<Entry>, cats: seq<Category>, size: nat, all: seq<Section>)
    requires size <= y.limit + 1 && all == Sections(y, l, cats, size)
    ensures size + |Join(all)| <= y.limit + 1
    decreases |cats|
  {
    if cats != [] && all != [] {
      SectionsStep(y, l, cats, size, all);
      if all == Sections(y, l, cats[1..], size) {
        SectionsFit(y, l, cats[1..], size, all);
      } else {
        SectionsFit(y, l, cats[1..], size + |all[0].text|, all[1..]);
      }
    }
  }

  lemma LayoutHasRoom()
    ensures |LAYOUT.preamble| + |Header(LAYOUT, Learning)| + 3 <= LAYOUT.limit == MAX_PROMPT
    ensures DistinctCategories(LAYOUT.order)
  {
  }

  lemma PromptFits(y: Layout, l: seq<Entry>)
    requires |y.preamble| <= y.limit
    ensures |Prompt(y, l)| <= y.limit + 1
  {
    SectionsFit(y, l, y.order, |y.preamble|, Sections(y, l, y.order, |y.preamble|));
  }

  function Filler(n: nat): string {
    seq(n, _ => 'x')
  }

  // The bound is reached: for every layout whose budget leaves room for a line there is a memory
  // whose prompt is one byte too long.
  lemma PromptBoundIsTight(y: Layout)
    requires y.order != [] && DistinctCategories(y.order)
    requires y.limit >= |y.preamble| + |Header(y, y.order[|y.order| - 1])| + 3
    ensures exists l :: Valid(l, 1) && |Prompt(y, l)| == y.limit + 1
  {
    var c := y.order[|y.order| - 1];
    var start := |y.preamble| + |Header(y, c)|;
    var e := Entry("", c, Filler(y.limit - start - 3), 0);
    var l, s := [e], Show(y, c, [e]);
    assert |Line(e)| == y.limit - start;
    OnlyLast(y, e, y.order, |y.preamble|);
    assert [s][1..] == [];
    assert Join([s]) == s.text + Join([]);
    assert Lines([e]) == Line(e) + Lines([]) by {
      assert [e][1..] == [];
    }
    assert |Prompt(y, l)| == y.limit + 1;
  }

  lemma InCategoryOne(e: Entry, c: Category)
    ensures InCategory([e], c) == if e.category == c then [e] else []
  {
    assert [e][..0] == [];
  }

  lemma LastSection(y: Layout, e: Entry, size: nat)
    requires size + |Header(y, e.category)| + |Line(e)| <= y.limit
    ensures Sections(y, [e], [e.category], size) == [Show(y, e.category, [e])]
  {
    var start := size + |Header(y, e.category)|;
    InCategoryOne(e, e.category);
    assert [e][1..] == [] && [e][..1] == [e] && [e.category][1..] == [];
    assert Fitting([e], start, y.limit) == 1 + Fitting([e][1..], start + |Line(e)|, y.limit);
  }

  lemma OnlyLast(y: Layout, e: Entry, cats: seq<Category>, size: nat)
    requires size + |Header(y, e.category)| + |Line(e)| <= y.limit
    requires cats != [] && cats[|cats| - 1] == e.category && DistinctCategories(cats)
    ensures Sections(y, [e], cats, size) == [Show(y, e.category, [e])]
  {
    forall i | 0 <= i < |cats| - 1
      ensures InCategory([e], cats[i]) == []
    {
      InCategoryOne(e, cats[i]);
    }
    SkipEmpty(y, [e], cats, size, |cats| - 1);
    assert cats[|cats| - 1..] == [e.category];
    LastSection(y, e, size);
  }

  lemma {:induction false} SkipEmpty(y: Layout, l: seq<Entry>, cats: seq<Category>, size: nat, k: nat)
    requires k <= |cats| && forall i :: 0 <= i < k ==> InCategory(l, cats[i]) == []
    ensures Sections(y, l, cats, size) == Sections(y, l, cats[k..], size)
    decreases k
  {
    if k > 0 {
      SkipEmpty(y, l, cats[1..], size, k - 1);
      assert cats[1..][k - 1..] == cats[k..];
    } else {
      assert cats[0..] == cats;
    }
  }

  // ---------------------------------------------------------------- what the prompt leaves out

  // Every category that has entries, with all of them.
  function FullSections(y: Layout, l: seq<Entry>, cats: seq<Category>): seq<Section> {
    if cats == [] then [] else
      var mine := InCategory(l, cats[0]);
      (if mine == [] then [] else [Show(y, cats[0], mine)]) + FullSections(y, l, cats[1..])
  }

  lemma {:induction false} FittingAll(l: seq<Entry>, size: nat, limit: nat)
    ensures size + |Lines(l)| <= limit ==> Fitting(l, size, limit) == |l|
    decreases |l|
  {
    if l != [] {
      FittingAll(l[1..], size + |Line(l[0])|, limit);
    }
  }

  lemma FullSection(y: Layout, l: seq<Entry>, c: Category, size: nat)
    requires size + |Show(y, c, InCategory(l, c)).text| <= y.limit + 1
    ensures size + |Header(y, c)| <= y.limit
    ensures FirstSection(y, l, c, size) == Show(y, c, InCategory(l, c))
  {
    var mine := InCategory(l, c);
    FittingAll(mine, size + |Header(y, c)|, y.limit);
    assert mine[..|mine|] == mine;
  }

  lemma {:induction false} AllShownIfFits(y: Layout, l: seq<Entry>, cats: seq<Category>, size: nat)
    requires size + |Join(FullSections(y, l, cats))| <= y.limit + 1
    ensures Sections(y, l, cats, size) == FullSections(y, l, cats)
    decreases |cats|
  {
    if cats != [] {
      var full, rest := FullSections(y, l, cats), FullSections(y, l, cats[1..]);
      if InCategory(l, cats[0]) == [] {
        assert full == rest;
        AllShownIfFits(y, l, cats[1..], size);
      } else {
        var s := Show(y, cats[0], InCategory(l, cats[0]));
        assert full == [s] + rest && full[0] == s && full[1..] == rest;
        FullSection(y, l, cats[0], size);
        AllShownIfFits(y, l, cats[1..], size + |s.text|);
      }
    }
  }

  // Everything is shown if and only if there is room for it.
  lemma AllShownIff(y: Layout, l: seq<Entry>)
    requires l != [] && |y.preamble| <= y.limit
    ensures Sections(y, l, y.order, |y.preamble|) == FullSections(y, l, y.order)
       <==> |y.preamble| + |Join(FullSections(y, l, y.order))| <= y.limit + 1
  {
    var size := |y.preamble|;
    if size + |Join(FullSections(y, l, y.order))| <= y.limit + 1 {
      AllShownIfFits(y, l, y.order, size);
    } else {
      SectionsFit(y, l, y.order, size, Sections(y, l, y.order, size));
    }
  }

  // Sections stand in the order of the categories, none is passed over, and the first heading that
  // is left out does not fit.
  predicate StopsAt(y: Layout, shown: seq<Section>, full: seq<Section>, size: nat) {
    && |shown| <= |full|
    && (forall k :: 0 <= k < |shown| ==> shown[k].category == full[k].category)
    && (|shown| < |full| ==> size + |Join(shown)| + |Header(y, full[|shown|].category)| > y.limit)
  }

  lemma {:induction false} LeftOutDoesNotFit(y: Layout, l: seq<Entry>, cats: seq<Category>, size: nat)
    ensures StopsAt(y, Sections(y, l, cats, size), FullSections(y, l, cats), size)
    decreases |cats|
  {
    if cats != [] {
      var shown, full := Sections(y, l, cats, size), FullSections(y, l, cats);
      var rest := FullSections(y, l, cats[1..]);
      if InCategory(l, cats[0]) == [] {
        assert full == rest;
        LeftOutDoesNotFit(y, l, cats[1..], size);
      } else {
        assert full == [Show(y, cats[0], InCategory(l, cats[0]))] + rest;
        if size + |Header(y, cats[0])| > y.limit {
          assert shown == [] && full[0].category == cats[0];
        } else {
          var s := FirstSection(y, l, cats[0], size);
          LeftOutDoesNotFit(y, l, cats[1..], size + |s.text|);
          MoreShown(y, s, Sections(y, l, cats[1..], size + |s.text|), full[0], rest, size);
        }
      }
    }
  }

  lemma MoreShown(y: Layout, s: Section, shown: seq<Section>, f: Section, full: seq<Section>, size: nat)
    requires s.category == f.category && StopsAt(y, shown, full, size + |s.text|)
    ensures StopsAt(y, [s] + shown, [f] + full, size)
  {
    assert ([s] + shown)[1..] == shown;
    assert |shown| < |full| ==> ([f] + full)[|shown| + 1] == full[|shown|];
  }

  // ---------------------------------------------------------------- what the prompt shows

  lemma {:induction false} InCategoryMembers(l: seq<Entry>, c: Category)
    requires DistinctContents(l)
    ensures forall e :: e in InCategory(l, c) <==> e in l && e.category == c
    ensures DistinctContents(InCategory(l, c))
    decreases |l|
  {
    if l != [] {
      InCategoryMembers(l[..|l| - 1], c);
      assert l == l[..|l| - 1] + [l[|l| - 1]];
    }
  }

  predicate DistinctCategories(cats: seq<Category>) {
    forall i, j :: 0 <= i < j < |cats| ==> cats[i] != cats[j]
  }

  // One of the categories, and a beginning of its entries.
  predicate ShowsPrefix(l: seq<Entry>, cats: seq<Category>, s: Section) {
    s.category in cats && s.shown <= InCategory(l, s.category)
  }

  // Sections are of different categories, and each shows a beginning of its category.
  predicate ShowPrefixes(l: seq<Entry>, cats: seq<Category>, s: seq<Section>) {
    && (forall k :: 0 <= k < |s| ==> ShowsPrefix(l, cats, s[k]))
    && (forall i, j :: 0 <= i < j < |s| ==> s[i].category != s[j].category)
  }

  lemma MoreCategories(l: seq<Entry>, cats: seq<Category>, s: seq<Section>)
    requires cats != [] && ShowPrefixes(l, cats[1..], s)
    ensures ShowPrefixes(l, cats, s)
  {
    forall k | 0 <= k < |s|
      ensures ShowsPrefix(l, cats, s[k])
    {
      assert ShowsPrefix(l, cats[1..], s[k]);
    }
  }

  lemma AddSection(l: seq<Entry>, cats: seq<Category>, s: Section, rest: seq<Section>)
    requires cats != [] && DistinctCategories(cats) && ShowPrefixes(l, cats[1..], rest)
    requires s.category == cats[0] && ShowsPrefix(l, cats, s)
    ensures ShowPrefixes(l, cats, [s] + rest)
  {
    MoreCategories(l, cats, rest);
    forall k | 0 <= k < |rest|
      ensures rest[k].category != s.category
    {
      assert ShowsPrefix(l, cats[1..], rest[k]);
    }
  }

  // The categories are gone through in order; some give no section.
  predicate InTurn(l: seq<Entry>, cats: seq<Category>, s: seq<Section>)
    decreases |cats|
  {
    || s == []
    || (cats != [] && InTurn(l, cats[1..], s))
    || (cats != [] && s[0].category == cats[0] && ShowsPrefix(l, cats, s[0]) && InTurn(l, cats[1..], s[1..]))
  }

  lemma {:induction false} InTurnShowPrefixes(l: seq<Entry>, cats: seq<Category>, s: seq<Section>)
    requires DistinctCategories(cats) && InTurn(l, cats, s)
    ensures ShowPrefixes(l, cats, s)
    decreases |cats|
  {
    if s != [] {
      if InTurn(l, cats[1..], s) {
        InTurnShowPrefixes(l, cats[1..], s);
        MoreCategories(l, cats, s);
      } else {
        InTurnShowPrefixes(l, cats[1..], s[1..]);
        AddSection(l, cats, s[0], s[1..]);
        assert s == [s[0]] + s[1..];
      }
    }
  }

  lemma {:induction false} SectionsInTurn(y: Layout, l: seq<Entry>, cats: seq<Category>, size: nat, all: seq<Section>)
    requires all == Sections(y, l, cats, size)
    ensures InTurn(l, cats, all)
    decreases |cats|
  {
    if cats != [] && all != [] {
      assert cats[0..] == cats;
      NoSection(y, l, cats, 0, size, all);
      if InCategory(l, cats[0]) == [] {
        SectionsInTurn(y, l, cats[1..], size, all);
      } else {
        NextSection(y, l, cats, 0, size, all);
        SectionsInTurn(y, l, cats[1..], size + |all[0].text|, all[1..]);
      }
    }
  }

  // No memory is shown twice.
  lemma NoneShownTwice(
    y: Layout, l: seq<Entry>, cats: seq<Category>, size: nat, s: seq<Section>, i: nat, p: nat, j: nat, q: nat)
    requires DistinctContents(l) && DistinctCategories(cats) && s == Sections(y, l, cats, size)
    requires i < |s| && p < |s[i].shown| && j < |s| && q < |s[j].shown|
    requires s[i].shown[p].content == s[j].shown[q].content
    ensures i == j && p == q
  {
    SectionsInTurn(y, l, cats, size, s);
    InTurnShowPrefixes(l, cats, s);
    ShownOnce(l, cats, s, i, p, j, q);
  }

  lemma ShownOnce(l: seq<Entry>, cats: seq<Category>, s: seq<Section>, i: nat, p: nat, j: nat, q: nat)
    requires DistinctContents(l) && ShowPrefixes(l, cats, s)
    requires i < |s| && p < |s[i].shown| && j < |s| && q < |s[j].shown|
    requires s[i].shown[p].content == s[j].shown[q].content
    ensures i == j && p == q
  {
    assert ShowsPrefix(l, cats, s[i]) && ShowsPrefix(l, cats, s[j]);
    InCategoryMembers(l, s[i].category);
    InCategoryMembers(l, s[j].category);
    var mine, yours := InCategory(l, s[i].category), InCategory(l, s[j].category);
    assert s[i].shown[p] == mine[p] && s[j].shown[q] == yours[q];
    assert mine[p] in mine && yours[q] in yours;
    SameContent(l, mine[p], yours[q]);
    assert i == j;
  }

  lemma SameContent(l: seq<Entry>, a: Entry, b: Entry)
    requires DistinctContents(l) && a in l && b in l && a.content == b.content
    ensures a == b
  {
  }

  // ---------------------------------------------------------------- the object

  function Ids(sections: seq<Section>): seq<string> {
    if sections == [] then [] else IdsOf(sections[0].shown) + Ids(sections[1..])
  }

  function IdsOf(l: seq<Entry>): seq<string> {
    seq(|l|, i requires 0 <= i < |l| => l[i].id)
  }

  class Store {
    var entries: seq<Entry>

    // `loaded` is whatever the file holds.
    constructor (loaded: seq<Entry>)
      ensures entries == loaded
    {
      entries := loaded;
    }

    // A failing save is reported, but the entry is remembered all the same. An entry without an
    // identifier gets one.
    method AddEntry(entry: Entry, generated: string, saves: bool) returns (ok: bool)
      modifies this
      ensures var e := if entry.id == "" then entry.(id := generated) else entry;
        entries == Added(old(entries), e, MAX_MEMORIES)
      ensures ok <==> saves || HasContent(old(entries), entry.content)
    {
      var i := 0;
      while i < |entries| && entries[i].content != entry.content
        invariant 0 <= i <= |entries| && forall k :: 0 <= k < i ==> entries[k].content != entry.content
      {
        i := i + 1;
      }
      ok := true;
      if i == |entries| {
        entries := entries + [if entry.id == "" then entry.(id := generated) else entry];
        if |entries| > MAX_MEMORIES {
          Evict();
        }
        ok := saves;
      }
    }

    method Evict()
      modifies this
      ensures entries == Evicted(old(entries), MAX_MEMORIES)
    {
      if |entries| > MAX_MEMORIES {
        var least := 0;
        for i := 1 to |entries|
          invariant least < i && IsLeastUsed(entries[..i], least)
        {
          assert entries[..i + 1] == entries[..i] + [entries[i]];
          if entries[i].usedCount < entries[least].usedCount {
            least := i;
          }
        }
        assert entries[..|entries|] == entries;
        LeastUsedIs(entries);
        OneLeastUsed(entries, least, LeastUsed(entries));
        entries := entries[..least] + entries[least + 1..];
      }
    }

    method MarkEntries(ids: set<string>)
      modifies this
      ensures entries == Marked(old(entries), ids)
      ensures forall i :: 0 <= i < |entries| ==>
        entries[i].usedCount == old(entries)[i].usedCount + if old(entries)[i].id in ids then 1 else 0
    {
      for i := 0 to |entries|
        invariant |entries| == |old(entries)|
        invariant forall k :: 0 <= k < i ==> entries[k] == Marked(old(entries), ids)[k]
        invariant forall k :: i <= k < |entries| ==> entries[k] == old(entries)[k]
      {
        if entries[i].id in ids {
          entries := entries[i := entries[i].(usedCount := entries[i].usedCount + 1)];
        }
      }
    }

    method FormatForPrompt() returns (text: string, usedIds: seq<string>)
      ensures text == Prompt(LAYOUT, entries) && |text| <= MAX_PROMPT + 1
      ensures usedIds == if entries == [] then [] else Ids(Sections(LAYOUT, entries, LAYOUT.order, |LAYOUT.preamble|))
    {
      text, usedIds := "", [];
      if entries != [] {
        text, usedIds := Format(LAYOUT, entries);
        LayoutHasRoom();
        PromptFits(LAYOUT, entries);
      }
    }
  }

  method CategoryEntries(l: seq<Entry>, c: Category) returns (mine: seq<Entry>)
    ensures mine == InCategory(l, c)
  {
    mine := [];
    for i := 0 to |l|
      invariant mine == InCategory(l[..i], c)
    {
      assert l[..i + 1][..i] == l[..i];
      if l[i].category == c {
        mine := mine + [l[i]];
      }
    }
    assert l[..|l|] == l;
  }

  lemma FittingUnfolds(l: seq<Entry>, i: nat, size: nat, limit: nat)
    requires i < |l|
    ensures size + |Line(l[i])| > limit ==> Fitting(l[i..], size, limit) == 0
    ensures size + |Line(l[i])| <= limit ==>
      Fitting(l[i..], size, limit) == 1 + Fitting(l[i + 1..], size + |Line(l[i])|, limit)
  {
    assert l[i..][1..] == l[i + 1..];
  }

  lemma LinesUnfold(l: seq<Entry>, i: nat, k: nat, text: string)
    requires i < k <= |l|
    ensures text + Lines(l[i..k]) == text + Line(l[i]) + Lines(l[i + 1..k])
  {
    assert l[i..k][1..] == l[i + 1..k];
  }

  // Writing stops at the first line that does not fit.
  method AppendLines(text: string, mine: seq<Entry>, limit: nat) returns (text': string, ids: seq<string>)
    ensures var shown := mine[..Fitting(mine, |text|, limit)];
      text' == text + Lines(shown) && ids == IdsOf(shown)
  {
    ghost var count := Fitting(mine, |text|, limit);
    text', ids := text, [];
    var i := 0;
    assert mine[0..] == mine && mine[0..count] == mine[..count];
    while i < |mine| && |text'| + |Line(mine[i])| <= limit
      invariant i <= count && count - i == Fitting(mine[i..], |text'|, limit)
      invariant text' + Lines(mine[i..count]) == text + Lines(mine[..count])
      invariant ids == IdsOf(mine[..i])
      decreases |mine| - i
    {
      FittingUnfolds(mine, i, |text'|, limit);
      LinesUnfold(mine, i, count, text');
      text' := text' + Line(mine[i]);
      ids := ids + [mine[i].id];
      i := i + 1;
    }
    if i < |mine| {
      FittingUnfolds(mine, i, |text'|, limit);
    }
    assert i == count && mine[i..count] == [];
    assert text' + "" == text';
  }

  lemma FirstText(y: Layout, l: seq<Entry>, c: Category, text: string)
    ensures var s := FirstSection(y, l, c, |text|);
      text + Header(y, c) + Lines(s.shown) + "\n" == text + s.text
  {
    var s := FirstSection(y, l, c, |text|);
    Regroup(text, Header(y, c), Lines(s.shown), "\n");
  }

  method AppendFirst(y: Layout, l: seq<Entry>, c: Category, mine: seq<Entry>, text: string, usedIds: seq<string>)
    returns (text': string, usedIds': seq<string>)
    requires mine == InCategory(l, c)
    ensures var s := FirstSection(y, l, c, |text|);
      text' == text + s.text && usedIds' == usedIds + IdsOf(s.shown)
  {
    var ids;
    text', ids := AppendLines(text + Header(y, c), mine, y.limit);
    FirstText(y, l, c, text);
    text' := text' + "\n";
    usedIds' := usedIds + ids;
  }

  lemma JoinStep(left: seq<Section>, text: string, text': string)
    requires left != [] && text' == text + left[0].text
    ensures text' + Join(left[1..]) == text + Join(left)
  {
    Associative(text, left[0].text, Join(left[1..]));
  }

  lemma IdsStep(left: seq<Section>, ids: seq<string>, ids': seq<string>)
    requires left != [] && ids' == ids + IdsOf(left[0].shown)
    ensures ids' + Ids(left[1..]) == ids + Ids(left)
  {
    Associative(ids, IdsOf(left[0].shown), Ids(left[1..]));
  }

  // One category; `left` are the sections still to be written, and `size` is what has been.
  method WriteCategory(y: Layout, l: seq<Entry>, cats: seq<Category>, k: nat, text: string, usedIds: seq<string>,
                       ghost size: nat, ghost left: seq<Section>)
    returns (text': string, usedIds': seq<string>, full: bool, ghost size': nat, ghost left': seq<Section>)
    requires k < |cats| && left == Sections(y, l, cats[k..], size) && size == |text|
    ensures size' == |text'| && left' == if full then [] else Sections(y, l, cats[k + 1..], size')
    ensures text' + Join(left') == text + Join(left)
    ensures usedIds' + Ids(left') == usedIds + Ids(left)
  {
    text', usedIds', full, size', left' := text, usedIds, false, size, left;
    NoSection(y, l, cats, k, size, left);
    var mine := CategoryEntries(l, cats[k]);
    if mine != [] {
      if |text| + |Header(y, cats[k])| > y.limit {
        full := true;
      } else {
        NextSection(y, l, cats, k, size, left);
        size', left' := size + |left[0].text|, left[1..];
        text', usedIds' := AppendFirst(y, l, cats[k], mine, text, usedIds);
        JoinStep(left, text, text');
        IdsStep(left, usedIds, usedIds');
      }
    }
  }

  method Format(y: Layout, l: seq<Entry>) returns (text: string, usedIds: seq<string>)
    ensures text == y.preamble + Join(Sections(y, l, y.order, |y.preamble|))
    ensures usedIds == Ids(Sections(y, l, y.order, |y.preamble|))
  {
    text, usedIds := y.preamble, [];
    ghost var size, left := |text|, Sections(y, l, y.order, |text|);
    ghost var whole, wholeIds := text + Join(left), Ids(left);
    var k, full := 0, false;
    assert y.order[0..] == y.order && usedIds + Ids(left) == Ids(left);
    while k < |y.order| && !full
      invariant k <= |y.order| && size == |text|
      invariant left == if full then [] else Sections(y, l, y.order[k..], size)
      invariant text + Join(left) == whole && usedIds + Ids(left) == wholeIds
      decreases |y.order| - k
    {
      text, usedIds, full, size, left := WriteCategory(y, l, y.order, k, text, usedIds, size, left);
      k := k + 1;
    }
    assert left == [] && text + "" == text && usedIds + [] == usedIds;
  }
}
