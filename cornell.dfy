/** Cornell notes: a note with a title and three rich-text areas (cues, main notes, summary),
    a list of saved drafts kept newest first, and file export of the note. */
module CornellNotes {
  import opened Common

  datatype CornellNote = CornellNote(title: string, cues: string, mainNotes: string, summary: string)

  const EmptyNote := CornellNote("", "", "", "")

  /** The three rich-text areas of a note. */
  datatype NoteArea = Cues | MainNotes | Summary

  /** A note as it comes back from storage, where any field may be missing. */
  datatype StoredNote = StoredNote(
    title: Option<string>, cues: Option<string>, mainNotes: Option<string>, summary: Option<string>)

  /** A saved draft; `createdAt` is the instant its timestamp denotes, in milliseconds. */
  datatype Draft = Draft(id: string, name: string, data: StoredNote, createdAt: int)

  /** What reading one storage key yields. */
  datatype Stored<T> = Absent | Corrupt | Parsed(value: T)

  datatype ExportFormat = Txt | Md | Pdf

  datatype ExportOutcome = EmptyNoteRefused | Download(filename: string)

  function Area(n: CornellNote, a: NoteArea): string {
    match a
    case Cues => n.cues
    case MainNotes => n.mainNotes
    case Summary => n.summary
  }

  /** `{ ...note, [area]: html }`: one area replaced, the title and the other areas kept. */
  function WithArea(n: CornellNote, a: NoteArea, html: string): (r: CornellNote)
    ensures Area(r, a) == html && r.title == n.title
    ensures forall b :: b != a ==> Area(r, b) == Area(n, b)
  {
    match a
    case Cues => n.(cues := html)
    case MainNotes => n.(mainNotes := html)
    case Summary => n.(summary := html)
  }

  /** `field || ''`. */
  function OrEmpty(field: Option<string>): (r: string)
    ensures field.Some? ==> r == field.value
    ensures field.None? ==> r == ""
  {
    if field.Some? then field.value else ""
  }

  /** A complete note from stored data, every missing field read as the empty string. */
  function Fill(s: StoredNote): CornellNote {
    CornellNote(OrEmpty(s.title), OrEmpty(s.cues), OrEmpty(s.mainNotes), OrEmpty(s.summary))
  }

  /** The copy of the current note that a new draft stores: every field present. */
  function Snapshot(n: CornellNote): StoredNote {
    StoredNote(Some(n.title), Some(n.cues), Some(n.mainNotes), Some(n.summary))
  }

  /** A note stored in a draft is the note loaded back from it. */
  lemma SnapshotFillRoundTrip(n: CornellNote)
    ensures Fill(Snapshot(n)) == n
  {
  }

  /** Migration of one draft of the legacy format: identity, name and time are kept and every
      field becomes present, defaulting to the empty string; it loads as the same note. */
  function Migrate(d: Draft): (r: Draft)
    ensures r.id == d.id && r.name == d.name && r.createdAt == d.createdAt
    ensures r.data.title.Some? && r.data.cues.Some? && r.data.mainNotes.Some? && r.data.summary.Some?
    ensures Fill(r.data) == Fill(d.data)
  {
    d.(data := Snapshot(Fill(d.data)))
  }

  function MigrateAll(ds: seq<Draft>): (r: seq<Draft>)
    ensures |r| == |ds| && forall i :: 0 <= i < |ds| ==> r[i] == Migrate(ds[i])
  {
    seq(|ds|, i requires 0 <= i < |ds| => Migrate(ds[i]))
  }

  /** Drafts ordered newest first by creation time. */
  predicate NewestFirst(ds: seq<Draft>) {
    forall i, j :: 0 <= i < j < |ds| ==> ds[i].createdAt >= ds[j].createdAt
  }

  /** A draft no older than every draft of a newest-first list can go in front of it. */
  lemma PrependNewest(x: Draft, ds: seq<Draft>)
    requires NewestFirst(ds)
    requires forall e :: e in ds ==> e.createdAt <= x.createdAt
    ensures NewestFirst([x] + ds)
  {
    forall i, j | 0 <= i < j < |[x] + ds| ensures ([x] + ds)[i].createdAt >= ([x] + ds)[j].createdAt {
      if i > 0 {
        assert ([x] + ds)[i] == ds[i - 1] && ([x] + ds)[j] == ds[j - 1];
      } else {
        assert ([x] + ds)[j] in ds;
      }
    }
  }

  /** A draft older than the head of a newest-first list goes behind the head: the head
      followed by the rest with the draft inserted is newest first and adds exactly the
      draft. */
  lemma KeepHead(d: Draft, ds: seq<Draft>, rest: seq<Draft>)
    requires NewestFirst(ds) && ds != [] && ds[0].createdAt > d.createdAt
    requires NewestFirst(rest) && multiset(rest) == multiset(ds[1..]) + multiset{d}
    ensures NewestFirst([ds[0]] + rest)
    ensures multiset([ds[0]] + rest) == multiset(ds) + multiset{d}
  {
    assert ds == [ds[0]] + ds[1..];
    forall e | e in rest ensures e.createdAt <= ds[0].createdAt {
      assert e in multiset(rest);
      if e != d {
        assert e in ds[1..];
      }
    }
    PrependNewest(ds[0], rest);
  }

  /** Inserts `d` into a newest-first list ahead of every draft that is not newer. */
  function InsertNewest(d: Draft, ds: seq<Draft>): (r: seq<Draft>)
    requires NewestFirst(ds)
    ensures NewestFirst(r)
    ensures multiset(r) == multiset(ds) + multiset{d}
  {
    if ds == [] || ds[0].createdAt <= d.createdAt then
      PrependNewest(d, ds);
      [d] + ds
    else
      var rest := InsertNewest(d, ds[1..]);
      KeepHead(d, ds, rest);
      [ds[0]] + rest
  }

  /** The stable sort by descending creation time used on every list of drafts. */
  function SortNewestFirst(ds: seq<Draft>): (r: seq<Draft>)
    ensures NewestFirst(r)
    ensures multiset(r) == multiset(ds)
  {
    if ds == [] then []
    else
      assert ds == [ds[0]] + ds[1..];
      InsertNewest(ds[0], SortNewestFirst(ds[1..]))
  }

  /** Sorting a list that is already newest first leaves it as it is. */
  lemma {:induction false} SortKeepsSorted(ds: seq<Draft>)
    requires NewestFirst(ds)
    ensures SortNewestFirst(ds) == ds
  {
    if ds != [] {
      SortKeepsSorted(ds[1..]);
      assert ds == [ds[0]] + ds[1..];
    }
  }

  /** Saving into a newest-first list inserts the new draft ahead of every draft that is not
      newer; a draft newer than all others simply goes to the front. */
  lemma SavePlacesNewDraft(d: Draft, ds: seq<Draft>)
    requires NewestFirst(ds)
    ensures SortNewestFirst([d] + ds) == InsertNewest(d, ds)
    ensures (forall e :: e in ds ==> e.createdAt <= d.createdAt) ==> SortNewestFirst([d] + ds) == [d] + ds
  {
    SortKeepsSorted(ds);
    assert ([d] + ds)[1..] == ds;
  }

  /** The drafts read at start-up: the current key when it parses; otherwise, when the
      current key is missing, the legacy key migrated; and nothing when a key is corrupt.
      The result is always newest first. */
  function LoadDrafts(current: Stored<seq<Draft>>, legacy: Stored<seq<Draft>>): (r: seq<Draft>)
    ensures NewestFirst(r)
    ensures current.Parsed? ==> multiset(r) == multiset(current.value)
    ensures current.Absent? && legacy.Parsed? ==> multiset(r) == multiset(MigrateAll(legacy.value))
    ensures current.Corrupt? || (current.Absent? && !legacy.Parsed?) ==> r == []
  {
    match current
    case Parsed(ds) => SortNewestFirst(ds)
    case Corrupt => []
    case Absent =>
      match legacy
      case Parsed(ds) => SortNewestFirst(MigrateAll(ds))
      case _ => []
  }

  /** `drafts.find(d => d.id === id)`. */
  function FindDraft(ds: seq<Draft>, id: string): (r: Option<Draft>)
    ensures r.None? <==> forall d :: d in ds ==> d.id != id
    ensures r.Some? ==> exists i :: 0 <= i < |ds| && ds[i] == r.value && r.value.id == id
                                    && forall j :: 0 <= j < i ==> ds[j].id != id
  {
    if ds == [] then None
    else if ds[0].id == id then Some(ds[0])
    else
      var r := FindDraft(ds[1..], id);
      if r.Some? then
        var i :| 0 <= i < |ds[1..]| && ds[1..][i] == r.value && r.value.id == id
                 && forall j :: 0 <= j < i ==> ds[1..][j].id != id;
        assert ds[i + 1] == r.value && forall j :: 0 <= j < i + 1 ==> ds[j].id != id;
        r
      else
        r
  }

  /** `drafts.filter(d => d.id !== id)`: the other drafts, in order. */
  function RemoveDraft(ds: seq<Draft>, id: string): (r: seq<Draft>)
    ensures |r| <= |ds| && IsSubsequence(r, ds)
    ensures forall d :: d in r <==> d in ds && d.id != id
    ensures (forall d :: d in ds ==> d.id != id) ==> r == ds
  {
    if ds == [] then []
    else
      var rest := RemoveDraft(ds[1..], id);
      assert ds == [ds[0]] + ds[1..];
      if ds[0].id == id then rest else [ds[0]] + rest
  }

  /** The filter keeps every draft with another id as often as it occurs, and none with the id. */
  lemma {:induction false} RemoveDraftCounts(ds: seq<Draft>, id: string)
    ensures forall d :: multiset(RemoveDraft(ds, id))[d] == if d.id != id then multiset(ds)[d] else 0
  {
    if ds != [] {
      RemoveDraftCounts(ds[1..], id);
      assert ds == [ds[0]] + ds[1..];
    }
  }

  /** Deleting drafts keeps the list newest first. */
  lemma {:induction false} RemoveKeepsNewestFirst(ds: seq<Draft>, id: string)
    requires NewestFirst(ds)
    ensures NewestFirst(RemoveDraft(ds, id))
  {
    if ds != [] {
      RemoveKeepsNewestFirst(ds[1..], id);
      if ds[0].id != id {
        var rest := RemoveDraft(ds[1..], id);
        assert RemoveDraft(ds, id) == [ds[0]] + rest;
        HeadLeads(ds, rest);
      }
    }
  }

  /** The head of a newest-first list can lead any newest-first list of its later drafts. */
  lemma HeadLeads(ds: seq<Draft>, rest: seq<Draft>)
    requires NewestFirst(ds) && ds != [] && NewestFirst(rest)
    requires forall e :: e in rest ==> e in ds[1..]
    ensures NewestFirst([ds[0]] + rest)
  {
    forall e | e in rest ensures e.createdAt <= ds[0].createdAt {
      var k :| 0 <= k < |ds[1..]| && ds[1..][k] == e;
      assert ds[k + 1] == e;
    }
    PrependNewest(ds[0], rest);
  }

  /** A newly saved draft with an id not used before is the one found by its id. */
  lemma {:induction false} SavedDraftLoadsBack(d: Draft, ds: seq<Draft>)
    requires forall e :: e in ds ==> e.id != d.id
    ensures FindDraft(SortNewestFirst([d] + ds), d.id) == Some(d)
  {
    var sorted := SortNewestFirst([d] + ds);
    assert d in multiset([d] + ds);
    assert d in sorted;
    var r := FindDraft(sorted, d.id);
    var i :| 0 <= i < |sorted| && sorted[i] == r.value && r.value.id == d.id;
    assert sorted[i] in multiset([d] + ds);
    assert sorted[i] in [d] + ds;
  }

  /** The name of a new draft: the localized prefix, a dash, and the trimmed title. */
  function DraftName(prefix: string, title: string): string {
    prefix + " - " + Trim(title)
  }

  /** `.replace(/\s+/g, '_')`: every maximal run of white space becomes one underscore. */
  function UnderscoreWhitespace(s: string): (r: string)
    ensures |r| <= |s|
    ensures forall i :: 0 <= i < |r| ==> !IsWhitespace(r[i])
    ensures (forall i :: 0 <= i < |s| ==> !IsWhitespace(s[i])) ==> r == s
    ensures r == [] <==> s == []
    ensures s != [] && IsWhitespace(s[0]) ==> r[0] == '_'
    decreases |s|
  {
    if s == [] then []
    else if IsWhitespace(s[0]) then "_" + UnderscoreWhitespace(TrimStart(s))
    else
      assert s == [s[0]] + s[1..];
      [s[0]] + UnderscoreWhitespace(s[1..])
  }

  /** A character that is not white space is kept, and the replacement goes on after it. */
  lemma UnderscoreKeeps(c: char, t: string)
    requires !IsWhitespace(c)
    ensures UnderscoreWhitespace([c] + t) == [c] + UnderscoreWhitespace(t)
  {
    assert ([c] + t)[0] == c && ([c] + t)[1..] == t;
  }

  /** A maximal white-space run becomes a single underscore, and the replacement goes on
      after it. With `UnderscoreKeeps` and the empty string this fixes the replacement on
      every string, since each non-empty string starts with a kept character or with a
      maximal run. */
  lemma UnderscoreRun(w: string, t: string)
    requires w != [] && IsBlank(w)
    requires t == [] || !IsWhitespace(t[0])
    ensures UnderscoreWhitespace(w + t) == "_" + UnderscoreWhitespace(t)
  {
    assert (w + t)[0] == w[0];
    TrimStartAppend(w, t);
  }

  /** `.replace(/[:.]/g, '-')`: colons and dots become dashes, every other character stays. */
  function DashTimestamp(s: string): (r: string)
    ensures |r| == |s|
    ensures forall i :: 0 <= i < |r| ==> r[i] != ':' && r[i] != '.'
    ensures forall i :: 0 <= i < |s| && (s[i] == ':' || s[i] == '.') ==> r[i] == '-'
    ensures forall i :: 0 <= i < |s| && s[i] != ':' && s[i] != '.' ==> r[i] == s[i]
  {
    seq(|s|, i requires 0 <= i < |s| => if s[i] == ':' || s[i] == '.' then '-' else s[i])
  }

  /** The export file name without its extension. */
  function ExportBaseName(n: CornellNote, isoTime: string): string {
    var title := if Trim(n.title) == "" then "untitled" else Trim(n.title);
    "cornell-note-" + UnderscoreWhitespace(title) + "-" + DashTimestamp(isoTime)
  }

  function Extension(f: ExportFormat): string {
    match f
    case Txt => ".txt"
    case Md => ".md"
    case Pdf => ".pdf"
  }

  /** The export handler's decision: a note whose title and three areas are all empty is
      refused; any other note is downloaded under the base name and the format's extension,
      a name with no white space in its title part and no colon or dot in its timestamp. */
  function Export(n: CornellNote, f: ExportFormat, isoTime: string): (r: ExportOutcome)
    ensures r.EmptyNoteRefused? <==> n == EmptyNote
    ensures r.Download? ==> exists stem ::
      && r.filename == "cornell-note-" + stem + "-" + DashTimestamp(isoTime) + Extension(f)
      && stem != []
      && (forall i :: 0 <= i < |stem| ==> !IsWhitespace(stem[i]))
    ensures r.Download? ==>
      r.filename == "cornell-note-" + UnderscoreWhitespace(if Trim(n.title) == "" then "untitled" else Trim(n.title))
                    + "-" + DashTimestamp(isoTime) + Extension(f)
  {
    if n.title == "" && n.cues == "" && n.mainNotes == "" && n.summary == "" then EmptyNoteRefused
    else
      var title := if Trim(n.title) == "" then "untitled" else Trim(n.title);
      var stem := UnderscoreWhitespace(title);
      var name := ExportBaseName(n, isoTime) + Extension(f);
      assert name == "cornell-note-" + stem + "-" + DashTimestamp(isoTime) + Extension(f);
      Download(name)
  }

  /** The state of the Cornell notes view: the note being edited and the saved drafts. */
  class CornellEditor {
    var note: CornellNote
    var drafts: seq<Draft>

    /** The drafts list is kept newest first by every change. */
    ghost predicate Valid()
      reads this
    {
      NewestFirst(drafts)
    }

    /** Mounting the view: an empty note and the drafts read from storage. */
    constructor (current: Stored<seq<Draft>>, legacy: Stored<seq<Draft>>)
      ensures Valid()
      ensures note == EmptyNote && drafts == LoadDrafts(current, legacy)
    {
      note := EmptyNote;
      drafts := LoadDrafts(current, legacy);
    }

    /** Typing in the title field. */
    method SetTitle(value: string)
      modifies this
      ensures note == old(note).(title := value) && drafts == old(drafts)
    {
      note := note.(title := value);
    }

    /** An editor area reporting its new content. */
    method UpdateArea(a: NoteArea, html: string)
      modifies this
      ensures note == WithArea(old(note), a, html) && drafts == old(drafts)
    {
      note := WithArea(note, a, html);
    }

    /** Saves the note as a new draft unless its title is blank; the note itself is kept. */
    method SaveDraft(namePrefix: string, newId: string, now: int) returns (saved: bool)
      requires Valid()
      modifies this
      ensures Valid()
      ensures saved <==> Trim(old(note).title) != ""
      ensures !saved ==> drafts == old(drafts)
      ensures saved ==> drafts == SortNewestFirst(
        [Draft(newId, DraftName(namePrefix, note.title), Snapshot(note), now)] + old(drafts))
      ensures note == old(note)
    {
      if Trim(note.title) == "" {
        return false;
      }
      var newDraft := Draft(newId, DraftName(namePrefix, note.title), Snapshot(note), now);
      drafts := SortNewestFirst([newDraft] + drafts);
      saved := true;
    }

    /** Loads a draft into the note, missing fields as empty strings; an unknown id does
        nothing. */
    method LoadDraft(draftId: string)
      modifies this
      ensures drafts == old(drafts)
      ensures FindDraft(drafts, draftId).None? ==> note == old(note)
      ensures FindDraft(drafts, draftId).Some? ==> note == Fill(FindDraft(drafts, draftId).value.data)
    {
      var draftToLoad := FindDraft(drafts, draftId);
      if draftToLoad.None? {
        return;
      }
      note := Fill(draftToLoad.value.data);
    }

    /** Deletes the drafts with the given id, keeping the others in order; an unknown id
        does nothing. */
    method DeleteDraft(draftId: string)
      requires Valid()
      modifies this
      ensures Valid()
      ensures drafts == RemoveDraft(old(drafts), draftId) && note == old(note)
      ensures (forall d :: d in old(drafts) ==> d.id != draftId) ==> drafts == old(drafts)
    {
      var draftToDelete := FindDraft(drafts, draftId);
      if draftToDelete.None? {
        return;
      }
      RemoveKeepsNewestFirst(drafts, draftId);
      drafts := RemoveDraft(drafts, draftId);
    }
  }
}
