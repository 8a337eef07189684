/**
 * The note-taking side: keyword categorisation, `#tag` extraction, tag
 * merging, the category slug, grouping by category, and the note list with
 * its selection.
 */
module Notes {
  import opened Wrappers
  import opened Text
  import opened Seqs
  import opened Scheduler

  datatype Note = Note(
    id: string,
    title: string,
    body: string,
    created: Time,
    updated: Time,
    category: string,
    tags: seq<string>)

  datatype Category = Category(id: string, name: string, color: string)

  /** The fields an update object may carry; absent fields are `None`. */
  datatype NotePatch = NotePatch(
    title: Option<string>,
    body: Option<string>,
    category: Option<string>,
    tags: Option<seq<string>>)

  const NoChange := NotePatch(None, None, None, None)

  /** The categories a first start begins with. */
  const DefaultCategories := [
    Category("general", "General", "gray"),
    Category("study", "Study", "blue"),
    Category("work", "Work", "green"),
    Category("personal", "Personal", "purple"),
    Category("ideas", "Ideas", "yellow"),
    Category("research", "Research", "red")
  ]

  const General := "general"

  /** The keyword table of `autoCategorizeNote`, in the order its entries are tried. */
  const CategoryKeywords: seq<(string, seq<string>)> := [
    ("study", ["study", "learn", "exam", "test", "homework", "assignment", "lecture", "course", "class", "education", "school", "university"]),
    ("work", ["work", "project", "meeting", "deadline", "client", "business", "office", "team", "manager", "task", "job"]),
    ("research", ["research", "analysis", "data", "findings", "hypothesis", "experiment", "study", "investigation", "survey"]),
    ("ideas", ["idea", "brainstorm", "concept", "innovation", "creative", "inspiration", "thought", "possibility"]),
    ("personal", ["personal", "diary", "journal", "reflection", "thoughts", "feelings", "life", "family", "friends"])
  ]

  /** `keywords.some(keyword => content.includes(keyword))`. */
  predicate AnyKeyword(keywords: seq<string>, content: string) {
    exists i :: 0 <= i < |keywords| && Contains(content, keywords[i])
  }

  /** The first entry of `table` from position `k` on whose keywords occur in `content`. */
  function FirstMatch(table: seq<(string, seq<string>)>, content: string, k: nat): (r: Option<nat>)
    requires k <= |table|
    ensures r.Some? ==> k <= r.value < |table| && AnyKeyword(table[r.value].1, content)
    ensures r.Some? ==> forall j :: k <= j < r.value ==> !AnyKeyword(table[j].1, content)
    ensures r.None? ==> forall j :: k <= j < |table| ==> !AnyKeyword(table[j].1, content)
    decreases |table| - k
  {
    if k == |table| then None
    else if AnyKeyword(table[k].1, content) then Some(k)
    else FirstMatch(table, content, k + 1)
  }

  /** The text the categoriser searches: title and body, lower-cased. */
  function CategorisedText(title: string, body: string): string {
    ToLower(title + " " + body)
  }

  /**
   * `autoCategorizeNote(title, body)`: the first category of the table with
   * a keyword in the lower-cased text, or "general" when none has one.
   */
  function AutoCategorize(title: string, body: string): (r: string)
    ensures var content := CategorisedText(title, body);
      || (r == General && forall j :: 0 <= j < |CategoryKeywords| ==> !AnyKeyword(CategoryKeywords[j].1, content))
      || (exists k :: 0 <= k < |CategoryKeywords| && r == CategoryKeywords[k].0
            && AnyKeyword(CategoryKeywords[k].1, content)
            && forall j :: 0 <= j < k ==> !AnyKeyword(CategoryKeywords[j].1, content))
    ensures r in ["study", "work", "research", "ideas", "personal", General]
  {
    match FirstMatch(CategoryKeywords, CategorisedText(title, body), 0)
    case None => General
    case Some(k) => CategoryKeywords[k].0
  }

  /** Categorisation does not depend on letter case. */
  lemma AutoCategorizeIgnoresCase(title: string, body: string)
    ensures AutoCategorize(ToLower(title), ToLower(body)) == AutoCategorize(title, body)
  {
    ToLowerConcat(title, " ");
    ToLowerConcat(title + " ", body);
    ToLowerConcat(ToLower(title), " ");
    ToLowerConcat(ToLower(title) + " ", ToLower(body));
    ToLowerIdempotent(title + " " + body);
    assert ToLower(" ") == " ";
  }

  /** A note whose title mentions "study" in any case is a study note. */
  lemma StudyTitleIsStudy(title: string, body: string)
    requires Contains(ToLower(title), "study")
    ensures AutoCategorize(title, body) == "study"
  {
    ToLowerConcat(title, " ");
    ToLowerConcat(title + " ", body);
    ContainsInContext([], ToLower(title), ToLower(" ") + ToLower(body), "study");
    assert ToLower(title + " " + body) == [] + ToLower(title) + (ToLower(" ") + ToLower(body));
    assert AnyKeyword(CategoryKeywords[0].1, CategorisedText(title, body)) by {
      assert CategoryKeywords[0].1[0] == "study";
    }
  }

  /** A window of a window is a window. */
  lemma ContainsPart(s: string, pat: string, i: nat, j: nat)
    requires Contains(s, pat) && i <= j <= |pat|
    ensures Contains(s, pat[i..j])
  {
    var k :| OccursAt(s, pat, k);
    var w := s[k..k + |pat|];
    assert w[i..j] == pat[i..j];
    assert forall m :: 0 <= m < j - i ==> w[i..j][m] == s[k + i..k + j][m];
    assert OccursAt(s, pat[i..j], k + i);
  }

  /**
   * "thoughts" is a personal keyword, but it contains the earlier ideas
   * keyword "thought": a text with "thoughts" is never filed as personal
   * or general.
   */
  lemma ThoughtsIsNeverPersonal(title: string, body: string)
    requires Contains(CategorisedText(title, body), "thoughts")
    ensures AutoCategorize(title, body) != "personal" && AutoCategorize(title, body) != General
  {
    var content := CategorisedText(title, body);
    ContainsPart(content, "thoughts", 0, 7);
    assert "thoughts"[0..7] == "thought";
    assert AnyKeyword(CategoryKeywords[3].1, content) by {
      assert CategoryKeywords[3].1[6] == "thought";
    }
  }

  predicate IsWord(w: string) {
    w != [] && forall i :: 0 <= i < |w| ==> IsWordChar(w[i])
  }

  /** What a tag looks like once extracted: a non-empty run of lower-case `\w` characters. */
  predicate IsTag(t: string) {
    IsWord(t) && forall i :: 0 <= i < |t| ==> !IsUpper(t[i])
  }

  /** The longest prefix of `\w` characters. */
  function WordPrefix(s: string): (w: string)
    ensures |w| <= |s| && w == s[..|w|]
    ensures forall i :: 0 <= i < |w| ==> IsWordChar(w[i])
    ensures |w| < |s| ==> !IsWordChar(s[|w|])
  {
    if s != [] && IsWordChar(s[0]) then [s[0]] + WordPrefix(s[1..]) else []
  }

  /** The `\w` run of a text is unchanged by anything after a non-word character. */
  lemma {:induction false} WordPrefixStops(u: string, v: string)
    requires v != [] && !IsWordChar(v[0])
    ensures WordPrefix(u + v) == WordPrefix(u)
    decreases |u|
  {
    if u == [] {
      assert u + v == v;
    } else {
      assert (u + v)[1..] == u[1..] + v;
      WordPrefixStops(u[1..], v);
    }
  }

  /**
   * `s.match(/#[\w]+/g)`, each match without its `#` and lower-cased: the
   * scan takes the longest `\w` run after a `#` and resumes after it.
   */
  function ScanTags(s: string): (tags: seq<string>)
    ensures forall i :: 0 <= i < |tags| ==> IsTag(tags[i])
    decreases |s|
  {
    if |s| >= 2 && s[0] == '#' && IsWordChar(s[1]) then
      var w := WordPrefix(s[1..]);
      [ToLower(w)] + ScanTags(s[1 + |w|..])
    else if s == [] then []
    else ScanTags(s[1..])
  }

  /** A match of `#[\w]+` begins at position `p`: a `#` followed by a word character. */
  predicate TagStart(s: string, p: int) {
    0 <= p && p + 1 < |s| && s[p] == '#' && IsWordChar(s[p + 1])
  }

  /**
   * The reference reading of the tag scan: from position `k` on, one tag per
   * `#` that is followed by a word character, in text order, each the whole
   * `\w` run after that `#`, lower-cased.
   */
  function TagsFrom(s: string, k: nat): seq<string>
    decreases |s| - k
  {
    if k >= |s| then []
    else (if TagStart(s, k) then [ToLower(WordPrefix(s[k + 1..]))] else []) + TagsFrom(s, k + 1)
  }

  /** Positions without a `#` contribute nothing. */
  lemma {:induction false} TagsFromSkip(s: string, i: nat, j: nat)
    requires i <= j <= |s|
    requires forall p :: i <= p < j ==> s[p] != '#'
    ensures TagsFrom(s, i) == TagsFrom(s, j)
    decreases j - i
  {
    if i < j {
      TagsFromSkip(s, i + 1, j);
    }
  }

  /** One step of the scan at position `k`. */
  lemma ScanTagsStep(s: string, k: nat)
    requires k < |s|
    ensures var w := WordPrefix(s[k + 1..]);
      && k + 1 + |w| <= |s|
      && (forall p :: k + 1 <= p < k + 1 + |w| ==> s[p] != '#')
      && (TagStart(s, k) ==> ScanTags(s[k..]) == [ToLower(w)] + ScanTags(s[k + 1 + |w|..]))
      && (!TagStart(s, k) ==> ScanTags(s[k..]) == ScanTags(s[k + 1..]))
  {
    var t := s[k..];
    var w := WordPrefix(s[k + 1..]);
    assert t[1..] == s[k + 1..];
    assert t[1 + |w|..] == s[k + 1 + |w|..];
    assert forall p :: k + 1 <= p < k + 1 + |w| ==> s[p] == w[p - k - 1];
  }

  lemma {:induction false} ScanTagsSuffix(s: string, k: nat)
    requires k <= |s|
    ensures ScanTags(s[k..]) == TagsFrom(s, k)
    decreases |s| - k
  {
    if k < |s| {
      ScanTagsStep(s, k);
      var w := WordPrefix(s[k + 1..]);
      assert TagsFrom(s, k) == (if TagStart(s, k) then [ToLower(w)] else []) + TagsFrom(s, k + 1);
      if TagStart(s, k) {
        ScanTagsSuffix(s, k + 1 + |w|);
        TagsFromSkip(s, k + 1, k + 1 + |w|);
      } else {
        ScanTagsSuffix(s, k + 1);
      }
    }
  }

  /** The scan finds exactly the tags of the reference reading: one per `#` followed by a word character. */
  lemma ScanTagsMatches(s: string)
    ensures ScanTags(s) == TagsFrom(s, 0)
  {
    ScanTagsSuffix(s, 0);
    assert s[0..] == s;
  }

  /** The match starting at position `p` is the tag `t`. */
  predicate TagAt(s: string, p: int, t: string) {
    TagStart(s, p) && t == ToLower(WordPrefix(s[p + 1..]))
  }

  lemma {:induction false} TagAtFound(s: string, k: nat, p: nat, t: string)
    requires k <= p < |s| && TagAt(s, p, t)
    ensures t in TagsFrom(s, k)
    decreases p - k
  {
    if k < p {
      TagAtFound(s, k + 1, p, t);
    }
  }

  lemma {:induction false} FoundTagAt(s: string, k: nat, t: string)
    requires t in TagsFrom(s, k)
    ensures exists p :: k <= p < |s| && TagAt(s, p, t)
    decreases |s| - k
  {
    if !TagAt(s, k, t) {
      FoundTagAt(s, k + 1, t);
      var p :| k + 1 <= p < |s| && TagAt(s, p, t);
    }
  }

  /** Every `#` followed by a word character yields its tag, and every tag comes from such a `#`. */
  lemma TagsFromMembers(s: string, k: nat, t: string)
    ensures t in TagsFrom(s, k) <==> exists p :: k <= p < |s| && TagAt(s, p, t)
  {
    if t in TagsFrom(s, k) {
      FoundTagAt(s, k, t);
    }
    if exists p :: k <= p < |s| && TagAt(s, p, t) {
      var p :| k <= p < |s| && TagAt(s, p, t);
      TagAtFound(s, k, p, t);
    }
  }

  /** The split law when the text before the separator starts with a tag. */
  lemma SplitAtTag(x: string, c: char, y: string)
    requires c != '#' && !IsWordChar(c) && TagStart(x, 0)
    requires var w := WordPrefix(x[1..]);
      ScanTags(x[1 + |w|..] + [c] + y) == ScanTags(x[1 + |w|..]) + ScanTags(y)
    ensures ScanTags(x + [c] + y) == ScanTags(x) + ScanTags(y)
  {
    var z := [c] + y;
    var w := WordPrefix(x[1..]);
    var u := x[1 + |w|..];
    AppendAssoc(x, [c], y);
    AppendAssoc(u, [c], y);
    DropAppend(x, z, 1);
    DropAppend(x, z, 1 + |w|);
    WordPrefixStops(x[1..], z);
    ScanTagsAtStart(x + z);
    ScanTagsAtStart(x);
    AppendAssoc([ToLower(w)], ScanTags(u), ScanTags(y));
  }

  lemma ScanTagsAtStart(s: string)
    requires TagStart(s, 0)
    ensures var w := WordPrefix(s[1..]);
      ScanTags(s) == [ToLower(w)] + ScanTags(s[1 + |w|..])
  {
  }

  /** The split law when the text before the separator does not start with a tag. */
  lemma SplitNoTag(x: string, c: char, y: string)
    requires c != '#' && !IsWordChar(c) && x != [] && !TagStart(x, 0)
    requires ScanTags(x[1..] + [c] + y) == ScanTags(x[1..]) + ScanTags(y)
    ensures ScanTags(x + [c] + y) == ScanTags(x) + ScanTags(y)
  {
    var s := x + [c] + y;
    assert s[0] == x[0] && s[1..] == x[1..] + [c] + y;
    assert |x| >= 2 ==> s[1] == x[1];
  }

  /** The scan runs through the text once: no tag spans a character that is neither `#` nor `\w`. */
  lemma {:induction false} ScanTagsSplit(x: string, c: char, y: string)
    requires c != '#' && !IsWordChar(c)
    ensures ScanTags(x + [c] + y) == ScanTags(x) + ScanTags(y)
    decreases |x|
  {
    if x == [] {
      assert (x + [c] + y)[1..] == y;
    } else if TagStart(x, 0) {
      var w := WordPrefix(x[1..]);
      ScanTagsSplit(x[1 + |w|..], c, y);
      SplitAtTag(x, c, y);
    } else {
      ScanTagsSplit(x[1..], c, y);
      SplitNoTag(x, c, y);
    }
  }

  /** `extractTags(title, body)`: the title's tags, then the body's. */
  function ExtractTags(title: string, body: string): (tags: seq<string>)
    ensures forall i :: 0 <= i < |tags| ==> IsTag(tags[i])
    ensures tags == ScanTags(title) + ScanTags(body)
  {
    ScanTagsSplit(title, ' ', body);
    ScanTags(title + " " + body)
  }

  /** Text without a `#` has no tags. */
  lemma {:induction false} NoHashNoTags(s: string)
    requires '#' !in s
    ensures ScanTags(s) == []
    decreases |s|
  {
    if s != [] {
      NoHashNoTags(s[1..]);
    }
  }

  lemma {:induction false} WordPrefixOfWord(w: string, rest: string)
    requires IsWord(w) && (rest == [] || !IsWordChar(rest[0]))
    ensures WordPrefix(w + rest) == w
    decreases |w|
  {
    assert (w + rest)[1..] == w[1..] + rest;
    if |w| > 1 {
      WordPrefixOfWord(w[1..], rest);
    } else {
      assert w[1..] + rest == rest;
    }
  }

  /** Tags written as `#w ` one after another. */
  function RenderTags(ws: seq<string>): string {
    if ws == [] then [] else "#" + ws[0] + " " + RenderTags(ws[1..])
  }

  function LowerAll(ws: seq<string>): (r: seq<string>)
    ensures |r| == |ws| && forall i :: 0 <= i < |ws| ==> r[i] == ToLower(ws[i])
  {
    seq(|ws|, i requires 0 <= i < |ws| => ToLower(ws[i]))
  }

  /** A single `#w` is the one tag `w`, lower-cased. */
  lemma ScanOneTag(w: string)
    requires IsWord(w)
    ensures ScanTags("#" + w) == [ToLower(w)]
  {
    var s := "#" + w;
    assert s[1..] == w && w + [] == w;
    WordPrefixOfWord(w, []);
    assert s[1 + |w|..] == [];
  }

  /** Writing words as `#tags` and extracting them gives back the words, lower-cased, in order. */
  lemma {:induction false} ScanRenderedTags(ws: seq<string>)
    requires forall i :: 0 <= i < |ws| ==> IsWord(ws[i])
    ensures ScanTags(RenderTags(ws)) == LowerAll(ws)
  {
    if ws != [] {
      var w := ws[0];
      var rest := RenderTags(ws[1..]);
      assert RenderTags(ws) == ("#" + w) + [' '] + rest;
      ScanTagsSplit("#" + w, ' ', rest);
      ScanOneTag(w);
      ScanRenderedTags(ws[1..]);
      LowerAllCons(ws);
    }
  }

  lemma LowerAllCons(ws: seq<string>)
    requires ws != []
    ensures LowerAll(ws) == [ToLower(ws[0])] + LowerAll(ws[1..])
  {
    var r, t := LowerAll(ws), LowerAll(ws[1..]);
    assert forall i :: 0 <= i < |t| ==> r[i + 1] == t[i];
  }

  /** `[...new Set([...existing, ...extracted])]`. */
  function MergeTags(existing: seq<string>, extracted: seq<string>): (r: seq<string>)
    ensures NoDuplicates(r)
    ensures forall i :: 0 <= i < |r| ==> r[i] in existing || r[i] in extracted
    ensures forall t :: t in existing || t in extracted ==> t in r
  {
    var r := Unique(existing + extracted);
    assert forall t :: t in existing || t in extracted ==> t in existing + extracted;
    r
  }

  /** Merging keeps the existing tags first and in order, and appends each new tag once. */
  lemma MergeKeepsExisting(existing: seq<string>, extracted: seq<string>)
    requires NoDuplicates(existing)
    ensures var r := MergeTags(existing, extracted);
      |r| >= |existing| && r[..|existing|] == existing
  {
    UniqueOfDistinct(existing);
    UniquePrefix(existing, extracted);
  }

  /** Merging tags the note already has changes nothing. */
  lemma MergeKnownTags(existing: seq<string>, extracted: seq<string>)
    requires NoDuplicates(existing) && forall t :: t in extracted ==> t in existing
    ensures MergeTags(existing, extracted) == existing
  {
    UniqueAbsorbs(existing, extracted);
  }

  /** `notes.flatMap(note => note.tags)`. */
  function FlatTags(notes: seq<Note>): (r: seq<string>)
    ensures forall j :: 0 <= j < |notes| ==> forall t :: t in notes[j].tags ==> t in r
    ensures forall i :: 0 <= i < |r| ==> exists j :: 0 <= j < |notes| && r[i] in notes[j].tags
  {
    if notes == [] then [] else notes[0].tags + FlatTags(notes[1..])
  }

  lemma {:induction false} FlatTagsMembers(notes: seq<Note>, t: string)
    ensures t in FlatTags(notes) <==> exists i :: 0 <= i < |notes| && t in notes[i].tags
  {
    if notes != [] {
      FlatTagsMembers(notes[1..], t);
      if exists i :: 0 <= i < |notes| && t in notes[i].tags {
        var i :| 0 <= i < |notes| && t in notes[i].tags;
        if i > 0 {
          assert t in notes[1..][i - 1].tags;
        }
      }
      if exists i :: 0 <= i < |notes| - 1 && t in notes[1..][i].tags {
        var i :| 0 <= i < |notes| - 1 && t in notes[1..][i].tags;
        assert t in notes[i + 1].tags;
      }
    }
  }

  /** The global tag list: every tag of every note, once each. */
  function AllTags(notes: seq<Note>): (r: seq<string>)
    ensures NoDuplicates(r)
    ensures forall t :: t in r <==> exists i :: 0 <= i < |notes| && t in notes[i].tags
  {
    var flat := FlatTags(notes);
    var r := Unique(flat);
    forall t ensures t in r <==> exists i :: 0 <= i < |notes| && t in notes[i].tags {
        FlatTagsMembers(notes, t);
        if t in flat {
          var i :| 0 <= i < |flat| && flat[i] == t;
        }
        if t in r {
          var i :| 0 <= i < |r| && r[i] == t;
        }
    }
    r
  }

  /** `note.category || 'general'`. */
  function CategoryOf(n: Note): (r: string)
    ensures r != []
    ensures n.category != [] ==> r == n.category
    ensures n.category == [] ==> r == General
  {
    if n.category == [] then General else n.category
  }

  function NotesIn(notes: seq<Note>, cat: string): seq<Note> {
    Filter(notes, (n: Note) => CategoryOf(n) == cat)
  }

  lemma NotesInSnoc(notes: seq<Note>, i: nat, cat: string)
    requires i < |notes|
    ensures NotesIn(notes[..i + 1], cat) ==
      NotesIn(notes[..i], cat) + (if CategoryOf(notes[i]) == cat then [notes[i]] else [])
  {
    assert notes[..i + 1] == notes[..i] + [notes[i]];
    FilterConcat(notes[..i], [notes[i]], (n: Note) => CategoryOf(n) == cat);
  }

  /** Adding the note at `i` to its category's group keeps the grouping exact. */
  lemma GroupStep(notes: seq<Note>, i: nat, before: map<string, seq<Note>>, after: map<string, seq<Note>>)
    requires i < |notes|
    requires forall cat :: cat in before <==> exists j :: 0 <= j < i && CategoryOf(notes[j]) == cat
    requires forall cat :: cat in before ==> before[cat] == NotesIn(notes[..i], cat)
    requires forall cat :: cat !in before ==> NotesIn(notes[..i], cat) == []
    requires var cat := CategoryOf(notes[i]);
      after == before[cat := (if cat in before then before[cat] else []) + [notes[i]]]
    ensures forall cat :: cat in after <==> exists j :: 0 <= j < i + 1 && CategoryOf(notes[j]) == cat
    ensures forall cat :: cat in after ==> after[cat] == NotesIn(notes[..i + 1], cat)
    ensures forall cat :: cat !in after ==> NotesIn(notes[..i + 1], cat) == []
  {
    forall c {
      NotesInSnoc(notes, i, c);
    }
  }

  /**
   * `groupedNotes`: the notes of each category, in list order, keyed by
   * category; a category is a key exactly when some note has it.
   */
  method GroupByCategory(notes: seq<Note>) returns (groups: map<string, seq<Note>>)
    ensures forall cat :: cat in groups <==> exists j :: 0 <= j < |notes| && CategoryOf(notes[j]) == cat
    ensures forall cat :: cat in groups ==> groups[cat] == NotesIn(notes, cat)
  {
    groups := map[];
    var i := 0;
    while i < |notes|
      invariant 0 <= i <= |notes|
      invariant forall cat :: cat in groups <==> exists j :: 0 <= j < i && CategoryOf(notes[j]) == cat
      invariant forall cat :: cat in groups ==> groups[cat] == NotesIn(notes[..i], cat)
      invariant forall cat :: cat !in groups ==> NotesIn(notes[..i], cat) == []
    {
      var note := notes[i];
      var cat := CategoryOf(note);
      ghost var before := groups;
      if cat !in groups {
        groups := groups[cat := []];
      }
      groups := groups[cat := groups[cat] + [note]];
      GroupStep(notes, i, before, groups);
      i := i + 1;
    }
    assert notes[..i] == notes;
  }

  /** `notes.findIndex(n => n.id === id)`: the first position with that id, or -1. */
  function FindIndex(notes: seq<Note>, id: string): (k: int)
    ensures -1 <= k < |notes|
    ensures k >= 0 ==> notes[k].id == id && forall j :: 0 <= j < k ==> notes[j].id != id
    ensures k == -1 ==> forall j :: 0 <= j < |notes| ==> notes[j].id != id
  {
    if notes == [] then -1
    else if notes[0].id == id then 0
    else
      var k := FindIndex(notes[1..], id);
      if k == -1 then -1 else k + 1
  }

  /** `notes.find(n => n.id === selectedId)`; nothing is selected when `selected` is null. */
  function FindNote(notes: seq<Note>, selected: Option<string>): (r: Option<Note>)
    ensures r.Some? ==> r.value in notes && selected == Some(r.value.id)
    ensures r.None? ==> selected.None? || forall j :: 0 <= j < |notes| ==> notes[j].id != selected.value
  {
    if selected.None? then None
    else
      var k := FindIndex(notes, selected.value);
      if k < 0 then None else Some(notes[k])
  }

  function RemoveNote(notes: seq<Note>, id: string): (r: seq<Note>)
    ensures |r| <= |notes|
    ensures forall i :: 0 <= i < |r| ==> r[i] in notes && r[i].id != id
    ensures forall i :: 0 <= i < |notes| && notes[i].id != id ==> notes[i] in r
  {
    Filter(notes, (n: Note) => n.id != id)
  }

  /**
   * The selection after the selected note at `index` was deleted:
   * `(remaining[index] || remaining[index - 1] || remaining[0])?.id || null`.
   */
  function NextSelection(remaining: seq<Note>, index: int): (r: Option<string>)
    ensures r.Some? ==> exists i :: 0 <= i < |remaining| && remaining[i].id == r.value
    ensures remaining == [] ==> r.None?
  {
    var next :=
      if 0 <= index < |remaining| then Some(remaining[index])
      else if 0 <= index - 1 < |remaining| then Some(remaining[index - 1])
      else if |remaining| > 0 then Some(remaining[0])
      else None;
    if next.Some? && next.value.id != [] then Some(next.value.id) else None
  }

  predicate UniqueNoteIds(notes: seq<Note>) {
    forall i, j :: 0 <= i < j < |notes| ==> notes[i].id != notes[j].id
  }

  /** Some note has the id `id`. */
  predicate HasId(notes: seq<Note>, id: string) {
    exists i :: 0 <= i < |notes| && notes[i].id == id
  }

  lemma {:induction false} RemoveNoteKeepsUnique(notes: seq<Note>, id: string)
    requires UniqueNoteIds(notes)
    ensures UniqueNoteIds(RemoveNote(notes, id))
  {
    if notes != [] {
      var p := (n: Note) => n.id != id;
      RemoveNoteKeepsUnique(notes[1..], id);
      var rest := RemoveNote(notes[1..], id);
      assert forall j :: 0 <= j < |rest| ==> rest[j].id != notes[0].id;
      assert RemoveNote(notes, id) == (if p(notes[0]) then [notes[0]] else []) + rest;
    }
  }

  lemma {:induction false} RemoveUniqueNote(notes: seq<Note>, k: nat)
    requires UniqueNoteIds(notes) && k < |notes|
    ensures RemoveNote(notes, notes[k].id) == notes[..k] + notes[k + 1..]
  {
    var id := notes[k].id;
    var p := (n: Note) => n.id != id;
    var a, b := notes[..k], notes[k + 1..];
    assert notes == a + [notes[k]] + b;
    assert forall x :: x in a ==> p(x) by {
      forall x | x in a ensures p(x) {
        var i :| 0 <= i < |a| && a[i] == x;
        assert x == notes[i];
      }
    }
    assert forall x :: x in b ==> p(x) by {
      forall x | x in b ensures p(x) {
        var i :| 0 <= i < |b| && b[i] == x;
        assert x == notes[k + 1 + i];
      }
    }
    FilterDropsOne(a, notes[k], b, p);
  }

  /**
   * Deleting the selected note, where ids are unique and non-empty, selects
   * the note that came after it, or the one before it when it was last, or
   * nothing when it was the only note.
   */
  lemma DeleteSelectsNeighbour(notes: seq<Note>, k: nat)
    requires UniqueNoteIds(notes) && k < |notes|
    requires forall i :: 0 <= i < |notes| ==> notes[i].id != []
    ensures var id := notes[k].id;
      NextSelection(RemoveNote(notes, id), FindIndex(notes, id)) ==
        if k + 1 < |notes| then Some(notes[k + 1].id)
        else if k >= 1 then Some(notes[k - 1].id)
        else None
  {
    RemoveUniqueNote(notes, k);
    assert FindIndex(notes, notes[k].id) == k;
  }

  /** `{ ...note, ...updates, updated: now }`. */
  function ApplyPatch(n: Note, patch: NotePatch, now: Time): (m: Note)
    ensures m.id == n.id && m.created == n.created && m.updated == now
    ensures m.title == (if patch.title.Some? then patch.title.value else n.title)
    ensures m.body == (if patch.body.Some? then patch.body.value else n.body)
    ensures m.category == (if patch.category.Some? then patch.category.value else n.category)
    ensures m.tags == (if patch.tags.Some? then patch.tags.value else n.tags)
  {
    n.(title := if patch.title.Some? then patch.title.value else n.title,
       body := if patch.body.Some? then patch.body.value else n.body,
       category := if patch.category.Some? then patch.category.value else n.category,
       tags := if patch.tags.Some? then patch.tags.value else n.tags,
       updated := now)
  }

  /** `{ ...a, ...b }` for two update objects: the fields of `b` win. */
  function Override(a: NotePatch, b: NotePatch): (r: NotePatch)
    ensures b.title.Some? ==> r.title == b.title
    ensures b.body.Some? ==> r.body == b.body
    ensures b.category.Some? ==> r.category == b.category
    ensures b.tags.Some? ==> r.tags == b.tags
    ensures b.title.None? ==> r.title == a.title
    ensures b.body.None? ==> r.body == a.body
    ensures b.category.None? ==> r.category == a.category
    ensures b.tags.None? ==> r.tags == a.tags
    ensures b.title.None? && b.body.None? && b.category.None? && b.tags.None? ==> r == a
  {
    NotePatch(
      if b.title.Some? then b.title else a.title,
      if b.body.Some? then b.body else a.body,
      if b.category.Some? then b.category else a.category,
      if b.tags.Some? then b.tags else a.tags)
  }

  /** Applying the combined update is applying the first update and then the second. */
  lemma OverrideApplies(n: Note, a: NotePatch, b: NotePatch, t: Time, now: Time)
    ensures ApplyPatch(n, Override(a, b), now) == ApplyPatch(ApplyPatch(n, a, t), b, now)
  {
  }

  /** The list after patching every note with the id `id`; no other note changes. */
  function PatchNotes(notes: seq<Note>, id: string, patch: NotePatch, now: Time): (r: seq<Note>)
    ensures |r| == |notes|
    ensures forall i :: 0 <= i < |notes| ==> r[i].id == notes[i].id
    ensures forall i :: 0 <= i < |notes| && notes[i].id != id ==> r[i] == notes[i]
    ensures forall i :: 0 <= i < |notes| && notes[i].id == id ==> r[i] == ApplyPatch(notes[i], patch, now)
  {
    seq(|notes|, i requires 0 <= i < |notes| =>
      if notes[i].id == id then ApplyPatch(notes[i], patch, now) else notes[i])
  }

  /**
   * The automatic part of `updateNote`: when the title or body changes, the
   * category is recomputed and the extracted tags are merged into the
   * note's tags.
   */
  function AutoUpdates(active: Note, patch: NotePatch): (auto: NotePatch)
    ensures patch.title.None? && patch.body.None? ==> auto == NoChange
    ensures patch.title.Some? || patch.body.Some? ==>
      var title := if patch.title.Some? then patch.title.value else active.title;
      var body := if patch.body.Some? then patch.body.value else active.body;
      && auto.category == Some(AutoCategorize(title, body))
      && auto.tags == Some(MergeTags(active.tags, ExtractTags(title, body)))
      && NoDuplicates(auto.tags.value)
      && (forall t :: t in active.tags ==> t in auto.tags.value)
      && (forall t :: t in ExtractTags(title, body) ==> t in auto.tags.value)
      && auto.title.None? && auto.body.None?
  {
    if patch.title.None? && patch.body.None? then NoChange
    else
      var title := if patch.title.Some? then patch.title.value else active.title;
      var body := if patch.body.Some? then patch.body.value else active.body;
      NotePatch(None, None, Some(AutoCategorize(title, body)), Some(MergeTags(active.tags, ExtractTags(title, body))))
  }

  /** `addCategory`'s id: lower-cased, each run of white space replaced by one `-`. */
  function Slug(name: string): (id: string)
    ensures |id| <= |name|
    ensures forall i :: 0 <= i < |id| ==> !IsWhitespace(id[i]) && !IsUpper(id[i])
    ensures (forall i :: 0 <= i < |name| ==> !IsWhitespace(name[i])) ==> id == ToLower(name)
    ensures name != [] && AllWhitespace(name) ==> id == "-"
  {
    SlugOfWord(name);
    SlugOfBlank(name);
    DashRuns(ToLower(name))
  }

  lemma SlugOfWord(name: string)
    ensures (forall i :: 0 <= i < |name| ==> !IsWhitespace(name[i])) ==> DashRuns(ToLower(name)) == ToLower(name)
  {
    LowerKeepsWhitespace(name);
    DashRunsNoWhitespace(ToLower(name));
  }

  lemma SlugOfBlank(name: string)
    ensures name != [] && AllWhitespace(name) ==> DashRuns(ToLower(name)) == "-"
  {
    LowerKeepsWhitespace(name);
    DashRunsAllWhitespace(ToLower(name));
  }

  /** `s.replace(/\s+/g, '-')`. */
  function DashRuns(s: string): (r: string)
    ensures |r| <= |s|
    ensures forall i :: 0 <= i < |r| ==> !IsWhitespace(r[i])
    ensures (forall i :: 0 <= i < |s| ==> !IsUpper(s[i])) ==> forall i :: 0 <= i < |r| ==> !IsUpper(r[i])
    decreases |s|
  {
    if s == [] then []
    else if IsWhitespace(s[0]) then "-" + DashRuns(TrimStart(s))
    else [s[0]] + DashRuns(s[1..])
  }

  /** Text without white space is left as it is. */
  lemma {:induction false} DashRunsNoWhitespace(s: string)
    ensures (forall i :: 0 <= i < |s| ==> !IsWhitespace(s[i])) ==> DashRuns(s) == s
    decreases |s|
  {
    if s != [] {
      DashRunsNoWhitespace(s[1..]);
    }
  }

  /** Text made only of white space becomes a single `-`. */
  lemma DashRunsAllWhitespace(s: string)
    ensures s != [] && AllWhitespace(s) ==> DashRuns(s) == "-"
  {
    if s != [] && AllWhitespace(s) {
      TrimStartRun(s, []);
      assert s + [] == s;
    }
  }

  /** A slug is its own slug. */
  lemma SlugIdempotent(name: string)
    ensures Slug(Slug(name)) == Slug(name)
  {
    var id := Slug(name);
    assert ToLower(id) == id;
    DashRunsNoWhitespace(id);
  }

  /** Trimming the start of a run of white space followed by a non-white character removes exactly the run. */
  lemma {:induction false} TrimStartRun(w: string, y: string)
    requires AllWhitespace(w)
    requires y == [] || !IsWhitespace(y[0])
    ensures TrimStart(w + y) == y
    decreases |w|
  {
    if w == [] {
      assert w + y == y;
    } else {
      assert (w + y)[1..] == w[1..] + y;
      TrimStartRun(w[1..], y);
    }
  }

  /** A first character that is not white space is kept. */
  lemma DashRunsKeepsFirst(c: char, t: string, u: string)
    requires !IsWhitespace(c) && DashRuns(t) == u
    ensures DashRuns([c] + t) == [c] + u
  {
    assert ([c] + t)[1..] == t;
  }

  /** A leading run of white space becomes one `-`. */
  lemma DashRunsLeadingRun(w: string, y: string)
    requires w != [] && AllWhitespace(w)
    requires y == [] || !IsWhitespace(y[0])
    ensures DashRuns(w + y) == "-" + DashRuns(y)
  {
    TrimStartRun(w, y);
    assert (w + y)[0] == w[0];
  }

  /**
   * A maximal run of white space, at any position and of any length,
   * becomes one `-`; the text before it stays as it is and the text after
   * it is processed in turn. With `DashRunsNoWhitespace` this fixes the
   * result on every input.
   */
  lemma {:induction false} DashRunsRun(x: string, w: string, y: string)
    requires forall i :: 0 <= i < |x| ==> !IsWhitespace(x[i])
    requires w != [] && AllWhitespace(w)
    requires y == [] || !IsWhitespace(y[0])
    ensures DashRuns(x + w + y) == x + "-" + DashRuns(y)
    decreases |x|
  {
    if x == [] {
      assert x + w + y == w + y;
      DashRunsLeadingRun(w, y);
    } else {
      var c, t, d := x[0], x[1..], DashRuns(y);
      DashRunsRun(t, w, y);
      DashRunsKeepsFirst(c, t + w + y, t + "-" + d);
      assert x == [c] + t;
      AppendAssoc([c], t, w);
      AppendAssoc([c], t + w, y);
      AppendAssoc([c], t, "-");
      AppendAssoc([c], t + "-", d);
    }
  }

  /** Lower-casing never turns a character into white space or white space into anything else. */
  lemma LowerKeepsWhitespace(s: string)
    ensures forall i :: 0 <= i < |s| ==> (IsWhitespace(ToLower(s)[i]) <==> IsWhitespace(s[i]))
  {
  }

  /** In a category name, each white-space run becomes one `-` and the words are lower-cased. */
  lemma SlugRun(x: string, w: string, y: string)
    requires forall i :: 0 <= i < |x| ==> !IsWhitespace(x[i])
    requires w != [] && AllWhitespace(w)
    requires y == [] || !IsWhitespace(y[0])
    ensures Slug(x + w + y) == ToLower(x) + "-" + Slug(y)
  {
    ToLowerConcat(x, w);
    ToLowerConcat(x + w, y);
    LowerKeepsWhitespace(x);
    LowerKeepsWhitespace(w);
    LowerKeepsWhitespace(y);
    DashRunsRun(ToLower(x), ToLower(w), ToLower(y));
  }

  /** The slug of two words separated by white space is both words lower-cased, joined by `-`. */
  lemma SlugJoinsWords(a: string, w: string, b: string)
    requires forall i :: 0 <= i < |a| ==> !IsWhitespace(a[i])
    requires w != [] && AllWhitespace(w)
    requires forall i :: 0 <= i < |b| ==> !IsWhitespace(b[i])
    ensures Slug(a + w + b) == ToLower(a) + "-" + ToLower(b)
  {
    SlugRun(a, w, b);
    LowerKeepsWhitespace(b);
    DashRunsNoWhitespace(ToLower(b));
  }

  /** The note list of the notes panel and editor, with the selection and the categories. */
  class NoteBook {
    var notes: seq<Note>
    var selectedId: Option<string>
    var categories: seq<Category>

    /** Ids are unique and a selection names a note of the list; every operation keeps this. */
    ghost predicate Valid()
      reads this
    {
      UniqueNoteIds(notes) && (selectedId.Some? ==> HasId(notes, selectedId.value))
    }

    constructor (storedNotes: seq<Note>, storedSelection: Option<string>, storedCategories: seq<Category>)
      ensures notes == storedNotes && selectedId == storedSelection && categories == storedCategories
    {
      notes := storedNotes;
      selectedId := storedSelection;
      categories := storedCategories;
    }

    /** The note being edited. */
    function ActiveNote(): (r: Option<Note>)
      reads this
      ensures r.Some? ==> r.value in notes && selectedId == Some(r.value.id)
      ensures r.None? ==> selectedId.None? || !HasId(notes, selectedId.value)
      ensures Valid() ==> (r.Some? <==> selectedId.Some?)
    {
      FindNote(notes, selectedId)
    }

    /** The global tag list of the sidebar. */
    function Tags(): (r: seq<string>)
      reads this
      ensures NoDuplicates(r)
      ensures forall t :: t in r <==> exists i :: 0 <= i < |notes| && t in notes[i].tags
    {
      AllTags(notes)
    }

    /** `createNote` with the generated `id` at `now`: an empty general note, first and selected. */
    method CreateNote(id: string, now: Time)
      requires forall i :: 0 <= i < |notes| ==> notes[i].id != id
      modifies this
      ensures notes == [Note(id, "", "", now, now, General, [])] + old(notes)
      ensures selectedId == Some(id) && categories == old(categories)
      ensures ActiveNote() == Some(notes[0])
      ensures old(Valid()) ==> Valid()
    {
      notes := [Note(id, "", "", now, now, General, [])] + notes;
      selectedId := Some(id);
      assert FindIndex(notes, id) == 0;
    }

    /** `deleteNote(id)`: the selection moves only when the deleted note was selected. */
    method DeleteNote(id: string)
      modifies this
      ensures notes == RemoveNote(old(notes), id) && categories == old(categories)
      ensures old(selectedId) == Some(id) ==> selectedId == NextSelection(notes, FindIndex(old(notes), id))
      ensures old(selectedId) != Some(id) ==> selectedId == old(selectedId)
      ensures old(Valid()) ==> Valid()
    {
      var index := FindIndex(notes, id);
      var remaining := RemoveNote(notes, id);
      if UniqueNoteIds(notes) {
        RemoveNoteKeepsUnique(notes, id);
      }
      if selectedId.Some? && selectedId != Some(id) && HasId(notes, selectedId.value) {
        var i :| 0 <= i < |notes| && notes[i].id == selectedId.value;
        assert notes[i] in remaining;
      }
      notes := remaining;
      if selectedId == Some(id) {
        selectedId := NextSelection(remaining, index);
      }
    }

    /** `updateNoteMetadata(noteId, updates)` at `now`: only the named note changes. */
    method UpdateNoteMetadata(noteId: string, updates: NotePatch, now: Time)
      modifies this
      ensures notes == PatchNotes(old(notes), noteId, updates, now)
      ensures selectedId == old(selectedId) && categories == old(categories)
      ensures old(Valid()) ==> Valid()
    {
      notes := PatchNotes(notes, noteId, updates, now);
    }

    /**
     * The editor's `updateNote(updates)` at `now`: nothing without an active
     * note; otherwise the active note takes the updates and, when the title
     * or body changed, the recomputed category and the merged tags.
     */
    method UpdateNote(updates: NotePatch, now: Time)
      modifies this
      ensures old(ActiveNote()).None? ==> notes == old(notes)
      ensures old(ActiveNote()).Some? ==>
        var active := old(ActiveNote()).value;
        notes == PatchNotes(old(notes), active.id, Override(updates, AutoUpdates(active, updates)), now)
      ensures selectedId == old(selectedId) && categories == old(categories)
      ensures old(Valid()) ==> Valid()
    {
      var active := ActiveNote();
      if active.None? {
        return;
      }
      var auto := AutoUpdates(active.value, updates);
      notes := PatchNotes(notes, active.value.id, Override(updates, auto), now);
    }

    /** `addCategory(name, color)`: appends the category and returns its slug id. */
    method AddCategory(name: string, color: string) returns (id: string)
      modifies this
      ensures id == Slug(name)
      ensures categories == old(categories) + [Category(id, name, color)]
      ensures notes == old(notes) && selectedId == old(selectedId)
      ensures old(Valid()) ==> Valid()
    {
      id := Slug(name);
      categories := categories + [Category(id, name, color)];
    }
  }
}
