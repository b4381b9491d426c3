/** The novelist mode: four sections (manuscript, characters, settings, notes), each a list
    of titled items with rich-text content; one section is active and one item may be
    selected for editing. */
module Novelist {
  import opened Common

  datatype Section = Manuscript | Characters | Settings | Notes

  datatype NovelItem = NovelItem(id: string, title: string, content: string, createdAt: string)

  datatype NovelData = NovelData(
    manuscript: seq<NovelItem>, characters: seq<NovelItem>,
    settings: seq<NovelItem>, notes: seq<NovelItem>)

  /** `novelData[section]`. */
  function Items(d: NovelData, s: Section): seq<NovelItem> {
    match s
    case Manuscript => d.manuscript
    case Characters => d.characters
    case Settings => d.settings
    case Notes => d.notes
  }

  /** `{ ...novelData, [section]: items }`: one section replaced, the other three kept. */
  function WithItems(d: NovelData, s: Section, items: seq<NovelItem>): (r: NovelData)
    ensures Items(r, s) == items
    ensures forall o :: o != s ==> Items(r, o) == Items(d, o)
  {
    match s
    case Manuscript => d.(manuscript := items)
    case Characters => d.(characters := items)
    case Settings => d.(settings := items)
    case Notes => d.(notes := items)
  }

  /** `items[i]` is the first item whose id is `id`. */
  predicate FirstWithId(items: seq<NovelItem>, id: string, i: int) {
    0 <= i < |items| && items[i].id == id && forall j :: 0 <= j < i ==> items[j].id != id
  }

  /** `items.find(item => item.id === id)`. */
  function FindItem(items: seq<NovelItem>, id: string): (r: Option<NovelItem>)
    ensures r.None? <==> forall it :: it in items ==> it.id != id
    ensures r.Some? ==> exists i :: FirstWithId(items, id, i) && items[i] == r.value
  {
    if items == [] then None
    else if items[0].id == id then
      assert FirstWithId(items, id, 0);
      Some(items[0])
    else
      var r := FindItem(items[1..], id);
      if r.Some? then
        var i :| FirstWithId(items[1..], id, i) && items[1..][i] == r.value;
        assert FirstWithId(items, id, i + 1);
        r
      else
        r
  }

  /** The item shown in the editor: none when nothing is selected (an empty id counts as
      nothing) or the selected id is not in the active section, otherwise the first item of
      the active section with the selected id. */
  function ActiveItem(d: NovelData, s: Section, selected: Option<string>): (r: Option<NovelItem>)
    ensures r.Some? <==> selected.Some? && selected.value != ""
                         && exists it :: it in Items(d, s) && it.id == selected.value
    ensures r.Some? ==> r.value in Items(d, s) && r.value.id == selected.value
    ensures r.Some? ==> exists i :: FirstWithId(Items(d, s), selected.value, i) && Items(d, s)[i] == r.value
  {
    if selected.None? || selected.value == "" then None
    else FindItem(Items(d, s), selected.value)
  }

  /** The id of the first item, if there is one. */
  function FirstId(items: seq<NovelItem>): (r: Option<string>)
    ensures r.None? <==> items == []
    ensures r.Some? ==> r.value == items[0].id
  {
    if items == [] then None else Some(items[0].id)
  }

  /** `items.filter(item => item.id !== id)`. */
  function RemoveItem(items: seq<NovelItem>, id: string): (r: seq<NovelItem>)
    ensures |r| <= |items| && IsSubsequence(r, items)
    ensures forall it :: it in r <==> it in items && it.id != id
    ensures (forall it :: it in items ==> it.id != id) ==> r == items
  {
    if items == [] then []
    else
      var rest := RemoveItem(items[1..], id);
      assert items == [items[0]] + items[1..];
      if items[0].id == id then rest else [items[0]] + rest
  }

  /** The filter keeps every item with another id as often as it occurs, and none with the id. */
  lemma {:induction false} RemoveItemCounts(items: seq<NovelItem>, id: string)
    ensures forall it :: multiset(RemoveItem(items, id))[it] == if it.id != id then multiset(items)[it] else 0
  {
    if items != [] {
      RemoveItemCounts(items[1..], id);
      assert items == [items[0]] + items[1..];
    }
  }

  /** Gives every item with id `id` the title `title`; nothing else changes. */
  function Retitle(items: seq<NovelItem>, id: string, title: string): (r: seq<NovelItem>)
    ensures |r| == |items|
    ensures forall i :: 0 <= i < |items| && items[i].id != id ==> r[i] == items[i]
    ensures forall i :: 0 <= i < |items| && items[i].id == id ==> r[i] == items[i].(title := title)
  {
    if items == [] then []
    else
      var it := items[0];
      [if it.id == id then it.(title := title) else it] + Retitle(items[1..], id, title)
  }

  /** Gives every item with id `id` the content `content`; nothing else changes. */
  function Rewrite(items: seq<NovelItem>, id: string, content: string): (r: seq<NovelItem>)
    ensures |r| == |items|
    ensures forall i :: 0 <= i < |items| && items[i].id != id ==> r[i] == items[i]
    ensures forall i :: 0 <= i < |items| && items[i].id == id ==> r[i] == items[i].(content := content)
  {
    if items == [] then []
    else
      var it := items[0];
      [if it.id == id then it.(content := content) else it] + Rewrite(items[1..], id, content)
  }

  /** A freshly added item with an id not yet used in its section becomes the active item. */
  lemma AddedItemIsActive(d: NovelData, s: Section, item: NovelItem)
    requires item.id != ""
    requires forall it :: it in Items(d, s) ==> it.id != item.id
    ensures ActiveItem(WithItems(d, s, Items(d, s) + [item]), s, Some(item.id)) == Some(item)
  {
    var items := Items(d, s) + [item];
    assert items[|items| - 1] == item;
  }

  /** After a delete, the item that was deleted is gone from the section, and the selection
      rule never leaves a dangling selection: it names an item that is still there. */
  lemma {:induction false} SelectionAfterDeleteIsValid(d: NovelData, s: Section, id: string)
    ensures var rest := RemoveItem(Items(d, s), id);
      && (forall it :: it in rest ==> it.id != id)
      && (FirstId(rest).Some? && FirstId(rest).value != "" ==>
            ActiveItem(WithItems(d, s, rest), s, FirstId(rest)).Some?)
  {
    var rest := RemoveItem(Items(d, s), id);
    if rest != [] {
      assert rest[0] in Items(WithItems(d, s, rest), s);
    }
  }

  /** The state of the novelist view. */
  class NovelistView {
    var data: NovelData
    var activeSection: Section
    var selectedItemId: Option<string>

    /** Opens on the manuscript section with the saved data; the selection effect then
        selects the first manuscript item. */
    constructor (saved: NovelData)
      ensures data == saved && activeSection == Manuscript
      ensures selectedItemId == FirstId(saved.manuscript)
    {
      data := saved;
      activeSection := Manuscript;
      selectedItemId := FirstId(saved.manuscript);
    }

    /** The item currently shown in the editor. */
    function Active(): Option<NovelItem>
      reads this
    {
      ActiveItem(data, activeSection, selectedItemId)
    }

    /** Clicking an item in the list selects it. */
    method SelectItem(id: string)
      modifies this
      ensures selectedItemId == Some(id)
      ensures data == old(data) && activeSection == old(activeSection)
    {
      selectedItemId := Some(id);
    }

    /** Switching section; when the section really changes, the selection moves to the first
        item of the new section, or to nothing when that section is empty. */
    method ChangeSection(s: Section)
      modifies this
      ensures activeSection == s && data == old(data)
      ensures s != old(activeSection) ==> selectedItemId == FirstId(Items(data, s))
      ensures s == old(activeSection) ==> selectedItemId == old(selectedItemId)
    {
      if s != activeSection {
        activeSection := s;
        var currentSectionItems := Items(data, activeSection);
        if |currentSectionItems| > 0 {
          selectedItemId := Some(currentSectionItems[0].id);
        } else {
          selectedItemId := None;
        }
      }
    }

    /** Appends an untitled, empty item to the active section and selects it. */
    method AddItem(newId: string, untitled: string, createdAt: string)
      modifies this
      ensures data == WithItems(old(data), activeSection,
                                Items(old(data), activeSection) + [NovelItem(newId, untitled, "", createdAt)])
      ensures activeSection == old(activeSection) && selectedItemId == Some(newId)
    {
      var newItem := NovelItem(newId, untitled, "", createdAt);
      data := WithItems(data, activeSection, Items(data, activeSection) + [newItem]);
      selectedItemId := Some(newItem.id);
    }

    /** Removes an item from the active section; if it was selected, the selection moves to
        the first remaining item of that section, or to nothing. */
    method DeleteItem(itemId: string)
      modifies this
      ensures data == WithItems(old(data), activeSection, RemoveItem(Items(old(data), activeSection), itemId))
      ensures activeSection == old(activeSection)
      ensures old(selectedItemId) == Some(itemId) ==> selectedItemId == FirstId(Items(data, activeSection))
      ensures old(selectedItemId) != Some(itemId) ==> selectedItemId == old(selectedItemId)
    {
      var remainingItems := RemoveItem(Items(data, activeSection), itemId);
      data := WithItems(data, activeSection, remainingItems);
      if selectedItemId == Some(itemId) {
        selectedItemId := if |remainingItems| > 0 then Some(remainingItems[0].id) else None;
      }
    }

    /** Renames the items with the given id in the active section. */
    method UpdateTitle(itemId: string, newTitle: string)
      modifies this
      ensures data == WithItems(old(data), activeSection, Retitle(Items(old(data), activeSection), itemId, newTitle))
      ensures activeSection == old(activeSection) && selectedItemId == old(selectedItemId)
    {
      data := WithItems(data, activeSection, Retitle(Items(data, activeSection), itemId, newTitle));
    }

    /** The editor's update callback: stores the edited content in the active item, and does
        nothing when no item is active. */
    method UpdateContent(html: string)
      modifies this
      ensures old(Active()).None? ==> data == old(data)
      ensures old(Active()).Some? ==>
        data == WithItems(old(data), activeSection, Rewrite(Items(old(data), activeSection), old(Active()).value.id, html))
      ensures activeSection == old(activeSection) && selectedItemId == old(selectedItemId)
    {
      var activeItem := Active();
      if activeItem.Some? {
        data := WithItems(data, activeSection, Rewrite(Items(data, activeSection), activeItem.value.id, html));
      }
    }
  }
}
