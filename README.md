# Nautilus Annotations — a verified model of its decision logic

Nautilus Annotations is a file-manager extension. It attaches a free-text note to
files and directories and stores it in the `metadata::annotation` attribute. It
shows an emblem on annotated entries and edits notes in a dialog. This project
models in Dafny the sequential logic inside `src/nautilus-annotations.c` and
proves what that logic promises:

- `metadata.dfy` (module `Metadata`): the metadata store as a value. It holds a map
  from entry to annotation, a set of entries whose query fails and a set of
  entries whose write fails. The host (`Host` class) holds that store and the set
  of entries whose cached information was invalidated. The write loop of
  `erase_annotations` and of the save path is a method, proved against `Written`,
  a fold over the selection.
- `classifier.dfy` (module `Classifier`): the two scanning loops of the menu
  provider, which fold a type mask, a content mask and a count. After them comes
  the menu built from the classification, with its labels and tooltips. The masks
  are records of two named flags. `g_dngettext` is the fallback used without
  native language support: the plural form when the count exceeds one.
- `emblem.dfy` (module `Emblem`): the info provider's emblem decision.
- `title.dfy` (module `Title`): the dialog title and the in-place path
  abbreviation (`~`, `~user`, `~root`), plus the default window size. `Expand`
  is tilde expansion under the convention that user directories are
  `/home/<user>` and the superuser's is `/root`. It inverts the abbreviation on
  the paths the `Unambiguous` predicate admits.
- `editor.dfy` (module `Editor`): the consensus scan that opens a session and the
  session as a class. The discard-button state machine, the commit on the
  dialog's response and the stand-alone erase action are also here.

Interfaces to code outside the model are parameters:

- The confirmation dialog is the user's answer, `confirmed`. Each operation asks
  at most once.
- Allocation failure of a session is `allocates`.
- The home directory is `home`, and `None` means it is unknown.
- The monitor work area is given as its width and height.
- The dialog's response id uses GTK 3's values: `GTK_RESPONSE_REJECT` is -2 and
  `GTK_RESPONSE_DELETE_EVENT` is -4.
- The text buffer's own behaviour, setting its text and its modified flag, is
  `Session.BufferChanged`.
- The handlers are called directly.

Where the design description and the code disagree, the model follows the code:

- When an entry's metadata query fails while the menu is built, the code sets no
  content bit for it. It does not count that entry as unannotated.
- A single entry gets the title "path – Annotations". Several entries get
  "Annotations shared between multiple files". An empty selection gets the plain
  "Annotations".

## Model

| member | source | states |
|---|---|---|
| `Metadata.WrittenAt` | src/nautilus-annotations.c:210-256 | After writing a value to a selection, every selected entry whose write succeeds holds exactly that value. If the value is an unset, the attribute is absent, not empty. Every other entry keeps its annotation, and the failure sets are unchanged. |
| `Metadata.QueryAfterWrite` | src/nautilus-annotations.c:307-347 | Through a query, a readable and writable selected entry reports the written text, or no annotation after an erase. Any other entry reports what it reported before. |
| `Metadata.Host.SetAttribute` | src/nautilus-annotations.c:317-326 | A single attribute write succeeds iff the entry is writable. It changes only that entry, and only on success. |
| `Metadata.Host.InvalidateExtensionInfo` | src/nautilus-annotations.c:339-341 | Invalidating an entry adds it to the invalidated set and leaves the store alone. |
| `Metadata.Host.WriteAll` | src/nautilus-annotations.c:307-347 | The save loop writes every entry in order. A failing entry is skipped and the others are still written. The new store is `Written(old store)`, and exactly the entries written successfully are invalidated. |
| `Metadata.Host.EraseAnnotations` | src/nautilus-annotations.c:210-256 | Erase is the same loop with the attribute unset, via `G_FILE_ATTRIBUTE_TYPE_INVALID`. |
| `Classifier.Classify` | src/nautilus-annotations.c:783-837 | After both loops the count equals the selection's length. The type mask is the OR over every entry, even when the first loop broke early. The annotated bit is set iff some entry's query succeeds with an annotation, and the unannotated bit iff some query succeeds without one. Failed queries set no bit. |
| `Classifier.GetFileItems` | src/nautilus-annotations.c:762-981 | The provider returns exactly the menu built from the selection's type mask, content mask and length. |
| `Classifier.GetBackgroundItems` | src/nautilus-annotations.c:984-1002 | The background menu is the file menu of the one-element selection holding the current folder. |
| `Classifier.MenuShape` | src/nautilus-annotations.c:843-973 | There is one top item. It holds an Edit + Erase submenu iff some entry is annotated, and is otherwise a single Annotate item. The Edit and Annotate items call annotate on the selection, and Erase calls unannotate on it. |
| `Classifier.TopLabelWording` | src/nautilus-annotations.c:848-955 | The top label uses the directory wording iff only directories are selected, and the file wording iff only files are. Otherwise it uses the "objects" wording. It is plural iff more than one entry of a single kind is selected. |
| `Classifier.EditAndTips` | src/nautilus-annotations.c:866-953 | Every tooltip that goes through `g_dngettext` is plural iff the count exceeds one (the fallback at lines 57-59): the top item's, the Erase item's and, when no entry is unannotated, the Edit item's. The Edit item reads "_Edit and extend" iff some entry is still unannotated. |
| `Classifier.ThreeAnnotatedFiles` | src/nautilus-annotations.c:843-926 | Three annotated files give the "Files' _annotations" submenu with "_Edit" (not "_Edit and extend") and "E_rase". |
| `Classifier.OneUnannotatedDirectory` | src/nautilus-annotations.c:928-955 | One unannotated directory gives exactly one "_Annotate directory" item with the singular tooltip. |
| `Emblem.UpdateFileInfo` | src/nautilus-annotations.c:1005-1044 | The status is FAILED iff the query fails. Otherwise it is COMPLETE, and the "emblem-annotations" emblem is added iff the entry has an annotation. |
| `Emblem.EmblemAgreesWithMenu` | src/nautilus-annotations.c:1030-1039 | An entry shows the emblem iff the menu for that entry alone offers the Edit/Erase submenu. |
| `Emblem.EmblemAfterWrite` | src/nautilus-annotations.c:337-341 | After a save on a readable, writable entry the emblem is shown, and after an erase it is not. |
| `Title.AbbreviateInPlace` | src/nautilus-annotations.c:486-505 | On every path except "/home" when the home-directory test does not catch it, the buffer rewrite puts `~` at the index before the abbreviated tail and returns that index. The string from there is `ShownPath` of the original path. |
| `Title.AbbreviationRoundTrip` | src/nautilus-annotations.c:490-505 | The home-directory prefix is tried first, then `/home`, then `/root`. Expanding the shown path gives back the path when all of these hold: the path is absolute and is not "/home"; the matched prefix ends at a component boundary; a path under `/home` has a non-empty user name with no `//`, and that user is not called `root`. |
| `Title.PrefixWithoutBoundary` | src/nautilus-annotations.c:495-498 | The `/home` test is a plain string prefix test. "/homework/notes" shows as "~ork/notes", which expands to "/home/ork/notes". |
| `Title.RootUserCollision` | src/nautilus-annotations.c:495-503 | A user directory called `root` under `/home` shows as "~root/x", the same title as "/root/x", and that title expands to "/root/x". |
| `Title.OtherUserExample` | src/nautilus-annotations.c:495-498 | With another home directory, "/home/john/x" shows as "~john/x". |
| `Title.SuperuserExample` | src/nautilus-annotations.c:500-503 | "/root/x" shows as "~root/x". |
| `Title.OwnHomeExample` | src/nautilus-annotations.c:490-493 | A path under the current user's home directory shows as "~" followed by the rest of the path. |
| `Title.ComputeTitle` | src/nautilus-annotations.c:464-529 | The computed title is `WindowTitle`: the shared title for several entries, and for one entry the shown path (or "???") + U+2002 U+2013 U+2002 + "Annotations". |
| `Title.TitleNamesEntry` | src/nautilus-annotations.c:513-518 | A single entry's title is a shown path followed by the separator and "Annotations". On unambiguous paths that shown path expands back to the entry's path. |
| `Title.DefaultSize` | src/nautilus-annotations.c:543-547 | Each dimension is the largest integer not above two thirds of the work area, or 300 by 400 when a dimension is 0. |
| `Editor.ScanAnnotations` | src/nautilus-annotations.c:646-724 | The scan loop, with its early return, break and continue paths, yields `Consensus`: no selection, aborted, declined, or open with a candidate. |
| `Editor.AgreeingAnnotations` | src/nautilus-annotations.c:676-692 | If every present annotation equals T (absent ones ignored) and one is present, the session opens with T. |
| `Editor.NoAnnotations` | src/nautilus-annotations.c:681-685 | If no entry is annotated and every query succeeds, the session opens with an empty buffer. |
| `Editor.DifferingAnnotations` | src/nautilus-annotations.c:694-712 | If two present annotations differ and every query up to the later one succeeds, declining opens no session and confirming opens a blank one. |
| `Editor.QueryFailureAborts` | src/nautilus-annotations.c:662-673 | A query failure before any two annotations have differed aborts the open, whatever the user would answer. |
| `Editor.SaveThenReopen` | src/nautilus-annotations.c:737-755 | Saving T on a readable, writable selection and reopening shows T. Erasing and reopening shows an empty buffer. |
| `Editor.DiscardStep` | src/nautilus-annotations.c:389-427 | After the switch on `(modified << 1) \| !button`, a button exists iff the buffer is modified. A button is created only when none exists and destroyed only when one does. A redundant call changes nothing. |
| `Editor.Decide` | src/nautilus-annotations.c:267-375 | An unmodified buffer closes with no writes. The session is kept iff it is modified, the response is REJECT and the user declines. Writes happen iff it is modified and the response is DELETE_EVENT: an erase iff the text is empty, otherwise a save of exactly the text. Any other response closes with no writes. |
| `Editor.CommitEffect` | src/nautilus-annotations.c:299-347 | A commit without writes leaves the store unchanged. An erase leaves the attribute absent and a save leaves exactly the text on every readable, writable selected entry. Entries outside the selection, and entries whose write fails, are unchanged. |
| `Editor.Session.constructor` | src/nautilus-annotations.c:126-142 | A new session owns a copy of the selection and starts with no discard button. Its buffer holds the initial text and is not modified. |
| `Editor.Session.Show` | src/nautilus-annotations.c:464-547 | Showing the dialog sets its title to `WindowTitle` and its default size to `DefaultSize`, and changes nothing else. |
| `Editor.Session.OnTextModifiedStateChange` | src/nautilus-annotations.c:382-431 | The handler keeps the invariant that every created button but the one shown was destroyed. Afterwards a button exists iff the buffer is modified, and the created and destroyed counts rise exactly as `DiscardStep` says. |
| `Editor.Session.OnAnnotationDialogResponse` | src/nautilus-annotations.c:259-379 | The session stays open iff `Decide` keeps it. The store becomes `StoreAfter` of the decided writes, and exactly the successfully written entries are invalidated. |
| `Editor.Annotate` | src/nautilus-annotations.c:618-759 | A session is created iff the consensus opens and allocation succeeds. It is fresh and consistent, holds the agreed text (or a blank buffer), is unmodified with no discard button, and carries the computed title and size. The store is never written. |
| `Editor.Unannotate` | src/nautilus-annotations.c:580-615 | Erase writes nothing for an empty selection or a declined confirmation. Otherwise it unsets the annotation on every writable entry and invalidates exactly those. |

## Left out

- Widget construction, styling classes, the CSS provider, modality and transient windows are left out. They are toolkit calls with no decision in them.
- The internals of the confirmation dialog are left out. Only its answer is modelled.
- The GIO metadata calls, file locations and the host's file-info objects are replaced by the `Store` value, its two failure sets and the invalidated set.
- Error messages written to stderr are not modelled. A failing entry is skipped in silence.
- The work-area query is left out. The work area is an input.
- GType registration, the provider interface tables, the module entry points and `nautilus_module_list_types` are left out. They are host ABI plumbing.
- Memory management is left out: freeing, reference counts, list copies, and destroying the dialog widget when a session ends. `open` becoming false stands for the destruction.
- Translations with native language support enabled are left out. Only the fallback plural rule is modelled.
- The event loop's signal dispatch order is left out. Handlers are called directly.
- Title.ShownPath: a path equal to "/home" that the home-directory test does not catch is excluded by precondition (`Abbreviable`). There the source writes `~` over the string's terminator and reads past it. `Title.WindowTitle`, `Title.ComputeTitle`, `Editor.Session.Show` and `Editor.Annotate` carry the same exclusion, the last only when a session is actually created.
- Title.ShownPath: paths are modelled as strings of characters, while the source indexes bytes of the UTF-8 path. A rewrite that lands inside a multi-byte character is not captured. For example, "/homeé/notes" shows as "~/notes" in the model, but the source writes `~` over the first byte of `é` and shows invalid UTF-8.
- Title.DefaultSize: the work area is a natural number, and the 32-bit overflow of `width * 2` for widths of 2^30 pixels and more is not modelled.
