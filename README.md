# Writing-app editing modes in Dafny

This project models the editing logic of a note-taking and writing web app. There are five parts:

- **Markdown toolbar** (`MarkdownFormat`): the plain-text editor's formatting handler.
  - Bold and italic wrap the selection in markers, or put an empty marker pair at the caret.
  - Headings and lists scan back to the start of the caret's line and insert their marker there, after a line break when the caret is inside a line other than the first.
- **Brainstorm mind map** (`Brainstorm`): topics on a canvas, each linked to its parent topic.
  - Topics can be moved, edited, added as roots or children, and recoloured with one font.
  - A topic can be deleted together with its whole branch by a breadth-first sweep.
  - Boards are saved with a name and a thumbnail view box, loaded and deleted.
- **Cornell notes** (`CornellNotes`): a note with a title and three areas, and a list of drafts kept newest first.
  - Drafts are saved (title required), loaded (missing fields read as empty) and deleted.
  - At start-up, drafts in the legacy format are migrated.
  - Export is refused for an empty note and builds a file name.
- **Novelist** (`Novelist`): four sections of titled items, one active section and one selected item.
  - Items are added, deleted, retitled and rewritten within the active section.
  - The selection follows section changes and deletes.
- **Slash commands** (`SlashCommands`): the palette's case-insensitive filter on label or id.

`Common` holds the JavaScript string operations the modes rely on:

- `trim` and the `\s` class, with the ECMAScript white-space set;
- ASCII lower-casing;
- `includes`;
- the subsequence relation used to say "in order, some left out".

The state of each React view is a class whose fields are the view's state variables. Each handler is a method that assigns the new state and states it in its `ensures`. The new values are built by pure functions, and the lemmas prove what the app promises about them.

Things that come from outside are parameters:

- ids built from the clock and ISO timestamps;
- localized strings and the translation function;
- the canvas origin and the pointer position;
- whatever storage returned at start-up.

## Model

| member | source | states |
|---|---|---|
| MarkdownFormat.Prefix | src/app/page.tsx:42-50 | every marker is non-empty, and heading and list markers end with a space |
| MarkdownFormat.Suffix | src/app/page.tsx:42-50 | bold and italic close with the same marker they open with; headings and lists have no closing marker |
| MarkdownFormat.Markers | src/app/page.tsx:42-50 | the switch yields exactly the prefix and suffix of the format |
| MarkdownFormat.LineStart | src/app/page.tsx:64-67 | the start of the caret's line is the greatest line beginning at or before the caret |
| MarkdownFormat.FindLineStart | src/app/page.tsx:64-67 | the backward scan stops at a line beginning, with no line break between it and the caret |
| MarkdownFormat.LineStartUnique | src/app/page.tsx:64-67 | a line beginning with no line break up to the caret is the start of the caret's line, so the scan finds exactly that line start |
| MarkdownFormat.HandleFormat | src/app/page.tsx:29-82 | the handler's new text and selection are those of the formatting specification, for every format and selection |
| MarkdownFormat.WrapSelection | src/app/page.tsx:52-61 | the bold and italic branches produce the wrap edit: markers around the selection, or a marker pair at the caret |
| MarkdownFormat.MarkLine | src/app/page.tsx:62-78 | the heading and list branch scans back to the line start and produces the line edit of the specification |
| MarkdownFormat.WrapSurroundsSelection | src/app/page.tsx:52-56 | with a selection, the text becomes before + marker + selection + marker + after, and the new selection covers exactly the text that was selected |
| MarkdownFormat.CaretGetsMarkerPair | src/app/page.tsx:57-61 | with a caret, an empty marker pair is inserted and the caret lands between the two markers |
| MarkdownFormat.LineMarkerAtLineStart | src/app/page.tsx:62-78 | heading and list markers only insert text at the line start; the text before and after is unchanged, and the caret collapses right after the marker whatever the selection end was |
| MarkdownFormat.NewlineExactlyMidLine | src/app/page.tsx:68-70 | the line break is inserted exactly when the caret's line is not the first and the caret is not at its start |
| SlashCommands.FilterCommands | src/components/slash-command-palette.tsx:43-46 | the offered commands are a subsequence of the list, no longer than it, and hold exactly the matching commands, each as often as it is listed |
| SlashCommands.EmptyQueryKeepsAll | src/components/slash-command-palette.tsx:43-46 | an empty query offers every command, in order |
| SlashCommands.QueryCaseIgnored | src/components/slash-command-palette.tsx:43-46 | lower-casing the query does not change what is offered |
| Common.ContainsIffOccurs | src/components/slash-command-palette.tsx:44-45 | `includes` succeeds exactly when the query stands somewhere in the text |
| Common.ToLowerIdempotent | src/components/slash-command-palette.tsx:44-45 | lower-casing an already lower-cased string changes nothing |
| Common.TrimStart | src/components/organize-mode-view.tsx:270 | only a leading run of white space is removed, and the result does not start with white space |
| Common.TrimEnd | src/components/organize-mode-view.tsx:270 | only a trailing run of white space is removed, and the result does not end with white space |
| Common.TrimEmptyIffBlank | src/components/organize-mode-view.tsx:270 | `trim()` yields the empty string exactly for a string made only of white space |
| Common.TrimEndsNotBlank | src/components/organize-mode-view.tsx:270 | a non-empty trimmed string neither starts nor ends with white space |
| Common.TrimIsBlankCut | src/components/organize-mode-view.tsx:270 | `trim()` keeps a contiguous middle part, cuts only white space, and is empty exactly for a blank title |
| Novelist.WithItems | src/components/novelist-mode-view.tsx:135-138 | replacing one section leaves the other three sections unchanged |
| Novelist.FindItem | src/components/novelist-mode-view.tsx:68 | the lookup fails exactly when no item has the id, and otherwise returns the first item with it |
| Novelist.ActiveItem | src/components/novelist-mode-view.tsx:66-69 | there is an active item exactly when a non-empty id is selected and present in the active section; it is the first item of that section with that id, as `find` returns it |
| Novelist.RemoveItem | src/components/novelist-mode-view.tsx:145 | the remaining items keep their order and are exactly the items with another id; nothing changes for an absent id |
| Novelist.RemoveItemCounts | src/components/novelist-mode-view.tsx:145 | every item with another id is kept as often as it occurs, and none with the id |
| Novelist.Retitle | src/components/novelist-mode-view.tsx:160-162 | only the titles of the items with the id change |
| Novelist.Rewrite | src/components/novelist-mode-view.tsx:92-94 | only the contents of the items with the id change |
| Novelist.AddedItemIsActive | src/components/novelist-mode-view.tsx:128-140 | a newly added item with an unused id is the active item afterwards |
| Novelist.SelectionAfterDeleteIsValid | src/components/novelist-mode-view.tsx:142-150 | after a delete, no item with the id remains, and a selection moved to the first remaining item names an item that is present |
| Novelist.NovelistView.constructor | src/components/novelist-mode-view.tsx:62-64 | the view opens on the manuscript with the saved data, and the selection effect selects the first manuscript item |
| Novelist.NovelistView.SelectItem | src/components/novelist-mode-view.tsx:207 | clicking an item selects its id and changes nothing else |
| Novelist.NovelistView.ChangeSection | src/components/novelist-mode-view.tsx:116-125 | a real change of section moves the selection to the new section's first item, or to none when that section is empty |
| Novelist.NovelistView.AddItem | src/components/novelist-mode-view.tsx:128-140 | one untitled, empty item is appended to the active section only, and it becomes selected |
| Novelist.NovelistView.DeleteItem | src/components/novelist-mode-view.tsx:142-155 | the id is removed from the active section only; a deleted selection moves to the first remaining item or to none, and any other selection stays |
| Novelist.NovelistView.UpdateTitle | src/components/novelist-mode-view.tsx:157-164 | only the titles of the matching items in the active section change |
| Novelist.NovelistView.UpdateContent | src/components/novelist-mode-view.tsx:87-97 | the editor's content goes into the active item of the active section only, and nothing changes when no item is active |
| CornellNotes.WithArea | src/components/organize-mode-view.tsx:178-180 | a content update changes only the named area of the note |
| CornellNotes.SnapshotFillRoundTrip | src/components/organize-mode-view.tsx:314-319 | a note copied into a draft loads back as the same note |
| CornellNotes.Migrate | src/components/organize-mode-view.tsx:142-152 | migration keeps id, name and creation time, makes every field present, and loads as the same note |
| CornellNotes.InsertNewest | src/components/organize-mode-view.tsx:289 | inserting into a newest-first list keeps it newest first and adds exactly the new draft |
| CornellNotes.SortNewestFirst | src/components/organize-mode-view.tsx:289 | the sort by descending creation time yields a newest-first permutation of its input |
| CornellNotes.SortKeepsSorted | src/components/organize-mode-view.tsx:167 | sorting a list that is already newest first leaves it as it is |
| CornellNotes.SavePlacesNewDraft | src/components/organize-mode-view.tsx:289 | saving inserts the new draft ahead of every draft that is not newer, and a draft newer than all others goes to the front |
| CornellNotes.LoadDrafts | src/components/organize-mode-view.tsx:122-168 | start-up drafts are always newest first: the stored drafts, or else the migrated legacy drafts, or nothing when a key is corrupt or both are missing |
| CornellNotes.FindDraft | src/components/organize-mode-view.tsx:310 | the lookup fails exactly when no draft has the id, and otherwise returns the first draft with it |
| CornellNotes.RemoveDraft | src/components/organize-mode-view.tsx:334 | the drafts left keep their order, are exactly the drafts with another id, and nothing changes for an absent id |
| CornellNotes.RemoveDraftCounts | src/components/organize-mode-view.tsx:334 | every draft with another id is kept as often as it occurs, and none with the id |
| CornellNotes.RemoveKeepsNewestFirst | src/components/organize-mode-view.tsx:334 | removing drafts from a newest-first list leaves it newest first |
| CornellNotes.SavedDraftLoadsBack | src/components/organize-mode-view.tsx:282-289 | a draft saved under an unused id is the one found when it is loaded |
| CornellNotes.UnderscoreWhitespace | src/components/organize-mode-view.tsx:215 | replacing white-space runs leaves no white space, is the identity on a string without any, and turns leading white space into an underscore |
| CornellNotes.UnderscoreKeeps | src/components/organize-mode-view.tsx:215 | a character that is not white space is kept, and the replacement goes on after it |
| CornellNotes.UnderscoreRun | src/components/organize-mode-view.tsx:215 | a maximal white-space run becomes exactly one underscore, and the replacement goes on after it; with `UnderscoreKeeps` this fixes the result on every string |
| CornellNotes.DashTimestamp | src/components/organize-mode-view.tsx:214 | every colon and dot of the timestamp becomes a dash, and every other character stays |
| CornellNotes.Export | src/components/organize-mode-view.tsx:213-225 | export is refused exactly for a note whose title and three areas are all empty; otherwise the file name is `cornell-note-`, the trimmed title (or `untitled` when it is blank) with its white-space runs replaced, a dash, the dashed timestamp and the extension; that stem is non-empty and has no white space |
| CornellNotes.CornellEditor.constructor | src/components/organize-mode-view.tsx:118-171 | the view starts with an empty note and the start-up drafts, newest first |
| CornellNotes.CornellEditor.SetTitle | src/components/organize-mode-view.tsx:174-176 | typing a title changes only the title |
| CornellNotes.CornellEditor.UpdateArea | src/components/organize-mode-view.tsx:178-180 | an area update changes only that area |
| CornellNotes.CornellEditor.SaveDraft | src/components/organize-mode-view.tsx:269-307 | a blank title is refused with the drafts unchanged; otherwise the new draft (prefix + " - " + trimmed title, a copy of the note) joins the drafts, which stay newest first |
| CornellNotes.CornellEditor.LoadDraft | src/components/organize-mode-view.tsx:309-328 | an unknown id changes nothing; otherwise the note becomes the first draft's data with missing fields empty |
| CornellNotes.CornellEditor.DeleteDraft | src/components/organize-mode-view.tsx:330-352 | an unknown id changes nothing; otherwise that id's drafts are removed, the rest keep their order and stay newest first |
| Brainstorm.MoveTopic | src/components/brainstorm-mode-view.tsx:245-249 | only the topics with the id move, and ids and links are kept |
| Brainstorm.EditTopic | src/components/brainstorm-mode-view.tsx:251-253 | only content, width and height of the topics with the id change, and ids and links are kept |
| Brainstorm.WithFont | src/components/brainstorm-mode-view.tsx:385-388 | every topic gets the font and nothing else changes |
| Brainstorm.FindTopic | src/components/brainstorm-mode-view.tsx:272 | the lookup fails exactly when no topic has the id, and otherwise returns the first topic with it |
| Brainstorm.ChildrenOf | src/components/brainstorm-mode-view.tsx:291 | the children are exactly the topics whose parent is the given id |
| Brainstorm.WithoutIds | src/components/brainstorm-mode-view.tsx:300 | the topics kept are exactly those outside the deleted set, in their order, each as often as it occurs |
| Brainstorm.BranchIsLeastClosed | src/components/brainstorm-mode-view.tsx:285-298 | a branch holds its root and every child of its members, and lies inside every set with those properties |
| Brainstorm.NoOrphansAfterDelete | src/components/brainstorm-mode-view.tsx:285-302 | after a branch is deleted, no remaining topic has a deleted parent |
| Brainstorm.SameShapeSameBranch | src/components/brainstorm-mode-view.tsx:245-253 | moving, editing and recolouring keep every branch, since they keep ids and links |
| Brainstorm.VisitChild | src/components/brainstorm-mode-view.tsx:293-296 | visiting a child marks it as found, queues it only when it was new, and keeps the sweep invariant |
| Brainstorm.EnqueueChildren | src/components/brainstorm-mode-view.tsx:291-297 | visiting one id marks and queues each child not seen before; every queued id is marked and queued once |
| Brainstorm.CollectBranch | src/components/brainstorm-mode-view.tsx:285-298 | the sweep terminates, and the set it builds is exactly the start id and all of its transitive descendants |
| Brainstorm.MinOf | src/components/brainstorm-mode-view.tsx:320-321 | `Math.min` over the topics is a lower bound attained by some topic |
| Brainstorm.MaxOf | src/components/brainstorm-mode-view.tsx:322-323 | `Math.max` over the topics is an upper bound attained by some topic |
| Brainstorm.ViewBoxFramesTopics | src/components/brainstorm-mode-view.tsx:318-341 | each rectangle drawn in the thumbnail lies inside the view box at least the padding from every edge, and the extreme topics lie exactly the padding away |
| Brainstorm.FirstRoot | src/components/brainstorm-mode-view.tsx:315 | the lookup fails exactly when every topic has a parent; otherwise it returns the first topic without one |
| Brainstorm.BoardLabel | src/components/brainstorm-mode-view.tsx:315 | a board is named by the first 20 characters of its first root topic's text, or by the untitled label when there is no root or its text is empty |
| Brainstorm.FindBoard | src/components/brainstorm-mode-view.tsx:364 | the lookup fails exactly when no board has the id, and otherwise returns the first board with it |
| Brainstorm.WithoutBoard | src/components/brainstorm-mode-view.tsx:377 | the boards left keep their order and are exactly those with another id, each as often as it occurs |
| Brainstorm.SavedBoardLoadsBack | src/components/brainstorm-mode-view.tsx:363-366 | a board appended under an unused id is the one found when it is loaded |
| Brainstorm.BrainstormView.constructor | src/components/brainstorm-mode-view.tsx:228-243 | the view starts with an empty canvas, the default font, nothing selected, and the stored boards |
| Brainstorm.BrainstormView.UpdateTopicPosition | src/components/brainstorm-mode-view.tsx:245-249 | the dragged topic goes to the pointer minus the canvas origin, and nothing changes without a canvas box |
| Brainstorm.BrainstormView.UpdateTopicContent | src/components/brainstorm-mode-view.tsx:251-253 | typing changes only that topic's content and size |
| Brainstorm.BrainstormView.AddTopic | src/components/brainstorm-mode-view.tsx:255-269 | one topic of width 150 and height 50 is appended in the current font, linked to the given parent or to none, and it becomes selected and edited |
| Brainstorm.BrainstormView.AddChildTopic | src/components/brainstorm-mode-view.tsx:271-276 | an unknown parent changes nothing; otherwise the child is appended 100 to the right of its parent, at the parent's height, linked to it, with the new label, the default size and the current font; the saved boards and the font are unchanged |
| Brainstorm.BrainstormView.CanvasRightClick | src/components/brainstorm-mode-view.tsx:278-283 | a right click on the bare canvas appends a root topic under the pointer and keeps the saved boards and the font; any other target changes nothing |
| Brainstorm.BrainstormView.DeleteBranch | src/components/brainstorm-mode-view.tsx:285-302 | exactly the topic and its transitive descendants are removed, and the others keep their order |
| Brainstorm.BrainstormView.ClearCanvas | src/components/brainstorm-mode-view.tsx:304-307 | every topic is removed and nothing else changes |
| Brainstorm.BrainstormView.SaveBoard | src/components/brainstorm-mode-view.tsx:309-361 | an empty canvas is refused with the boards unchanged; otherwise one board is appended with the canvas topics, the label and time as its name, and a view box of the topics' extent plus twice the padding |
| Brainstorm.BrainstormView.LoadBoard | src/components/brainstorm-mode-view.tsx:363-373 | an unknown id changes nothing; otherwise the canvas becomes the first such board's topics, taking the font of its first topic when that is not empty |
| Brainstorm.BrainstormView.DeleteBoard | src/components/brainstorm-mode-view.tsx:375-383 | the new boards are the old ones filtered by `WithoutBoard`: those with the id are removed and the others keep their order |
| Brainstorm.BrainstormView.SetGlobalFont | src/components/brainstorm-mode-view.tsx:385-388 | the font becomes the current font and every topic's font, and nothing else changes |

## Left out

- The whiteboard's drawing canvas, strokes, undo snapshots, resize, theme recolouring and PNG drafts: no source file implements them; only the locale strings name them.
- Storage: reads and writes of `localStorage`, JSON parsing and the `try`/`catch` around them, and the autosave hook with its debounce timer. The stores are the classes' fields. The start-up read is the `Stored` value passed in: absent, corrupt or parsed. An empty stored string counts as absent.
- CornellNotes.CornellEditor.SaveDraft and DeleteDraft: a failing storage write, which the app reports and then leaves the drafts unchanged, is not modelled.
- Timers and toasts: all notifications and their dismissal timers.
- The grammar-suggestion call to a remote AI flow.
- Export bodies: the text or HTML content, HTML stripping, PDF generation and the file download. Only the empty-note guard and the file name are modelled.
- The SVG thumbnail markup and its base64 encoding: only its view box is modelled, and `Brainstorm.ViewBoxFramesTopics` states where the rectangles go.
- Brainstorm.BrainstormView.SaveBoard: stores the view box width and height in place of the thumbnail string.
- DOM and editor wiring: text measurement of topics, the rich-text editors and their focus and content effects, the drag library, the theme's `prose-invert` test, and the missing-textarea early return of the formatting handler.
- Render-time sorts: the in-place sorts of a novelist section and of the saved boards inside the rendered lists. The model keeps each list in the order the handlers build it.
- Clock and identifiers: `Date.now()` ids, ISO timestamps and localized dates are parameters. Nothing in the app makes ids unique. The lemmas that need unused ids (`Novelist.AddedItemIsActive`, `CornellNotes.SavedDraftLoadsBack`, `Brainstorm.SavedBoardLoadsBack`) say so in their preconditions.
- Drafts' `createdAt` is the instant its ISO string denotes, as an integer number of milliseconds. Parsing the date is not modelled.
- Text: `toLowerCase` is modelled on the ASCII letters only, and no Unicode case mapping is done. Strings are sequences of Unicode scalar values rather than UTF-16 code units.
- Coordinates are exact reals, not IEEE doubles.
- Stale closures: the brainstorm sweep reads the topics of the current render, while the deletion filters the latest state. The model has one state, so the two are the same.
