/** The menu provider: classifies a selection by the kinds of its entries and by
    their annotations, and builds the context-menu item from the classification. */
module Classifier {
  import opened Metadata

  /** The `selection_type` bit mask: `files` is bit 1 (`NA_IS_FILE_SELECTION`),
      `directories` is bit 2 (`NA_IS_DIRECTORY_SELECTION`). */
  datatype SelectionType = SelectionType(files: bool, directories: bool)

  /** The `selection_content` bit mask: `annotated` is bit 1 (`NA_HAVE_ANNOTATED`),
      `unannotated` is bit 2 (`NA_HAVE_UNANNOTATED`). */
  datatype SelectionContent = SelectionContent(annotated: bool, unannotated: bool)

  const NoType := SelectionType(false, false)
  const FilesOnly := SelectionType(true, false)
  const DirectoriesOnly := SelectionType(false, true)
  const NoContent := SelectionContent(false, false)

  /** `selection_type |= is_directory ? NA_IS_DIRECTORY_SELECTION : NA_IS_FILE_SELECTION` */
  function AddType(t: SelectionType, e: Entry): SelectionType {
    if e.isDirectory then t.(directories := true) else t.(files := true)
  }

  /** `selection_content |= annotation ? NA_HAVE_ANNOTATED : NA_HAVE_UNANNOTATED` */
  function AddContent(c: SelectionContent, p: Probe): SelectionContent {
    match p
    case QueryFailed => c
    case Annotated(_) => c.(annotated := true)
    case Unannotated => c.(unannotated := true)
  }

  /** The kinds present in a selection: the OR over every entry. */
  function TypeOf(sel: seq<Entry>): SelectionType {
    SelectionType(exists i :: 0 <= i < |sel| && !sel[i].isDirectory,
                  exists i :: 0 <= i < |sel| && sel[i].isDirectory)
  }

  /** The annotation states present in a selection; an entry whose query fails
      contributes nothing. */
  function ContentOf(store: Store, sel: seq<Entry>): SelectionContent {
    SelectionContent(exists i :: 0 <= i < |sel| && store.Query(sel[i]).Annotated?,
                     exists i :: 0 <= i < |sel| && store.Query(sel[i]).Unannotated?)
  }

  /** The two scanning loops of the menu provider. The first folds both masks and
      stops as soon as both content bits are set; the `break` skips the increment,
      so the second loop re-reads that entry's kind and counts it, then finishes
      the type mask and the count over the rest of the selection. */
  method Classify(host: Host, selection: seq<Entry>) returns (kind: SelectionType, content: SelectionContent, sellen: nat)
    ensures kind == TypeOf(selection)
    ensures content == ContentOf(host.store, selection)
    ensures sellen == |selection|
  {
    kind, content, sellen := NoType, NoContent, 0;
    var i := 0;
    while i < |selection|
      invariant 0 <= i <= |selection| && sellen == i
      invariant kind == TypeOf(selection[..i])
      invariant content == ContentOf(host.store, selection[..i])
    {
      assert selection[..i + 1] == selection[..i] + [selection[i]];
      kind := AddType(kind, selection[i]);
      var probe := host.store.Query(selection[i]);
      if !probe.QueryFailed? {
        content := AddContent(content, probe);
        if content.annotated && content.unannotated {
          break;
        }
      }
      sellen := sellen + 1;
      i := i + 1;
    }
    // After a `break` the entry at `i` is already part of both masks.
    assert i < |selection| ==> kind == TypeOf(selection[..i + 1]);
    assert content.annotated && content.unannotated ==> content == ContentOf(host.store, selection);
    while i < |selection|
      invariant 0 <= i <= |selection| && sellen == i
      invariant kind == TypeOf(selection[..i]) || (i < |selection| && kind == TypeOf(selection[..i + 1]))
    {
      assert selection[..i + 1] == selection[..i] + [selection[i]];
      kind := AddType(kind, selection[i]);
      sellen := sellen + 1;
      i := i + 1;
    }
    assert selection[..i] == selection;
  }

  /** What activating a menu item calls, with the private copy of the selection
      bound to the item. */
  datatype Activation = NoHandler | AnnotateOn(files: seq<Entry>) | UnannotateOn(files: seq<Entry>)

  datatype MenuItem = MenuItem(name: string, caption: string, tip: string, icon: string,
                               activation: Activation, submenu: seq<MenuItem>)

  /** `g_dngettext` without native language support: the plural form when the
      count is greater than one. */
  function NGettext(singular: string, plural: string, n: nat): string {
    if n > 1 then plural else singular
  }

  function AnnotationsLabel(kind: SelectionType, n: nat): string {
    if kind == DirectoriesOnly then NGettext("Directory's _annotations", "Directories' _annotations", n)
    else if kind == FilesOnly then NGettext("File's _annotations", "Files' _annotations", n)
    else "Objects' _annotations"
  }

  function AnnotateLabel(kind: SelectionType, n: nat): string {
    if kind == DirectoriesOnly then NGettext("_Annotate directory", "_Annotate directories", n)
    else if kind == FilesOnly then NGettext("_Annotate file", "_Annotate files", n)
    else "_Annotate objects"
  }

  function EditItem(content: SelectionContent, n: nat, sel: seq<Entry>): MenuItem {
    MenuItem("NautilusAnnotations::annotate",
             if content.unannotated then "_Edit and extend" else "_Edit",
             if content.unannotated then "Edit and extend the annotations attached to the selected objects"
             else NGettext("Edit the annotations attached to the selected object",
                           "Edit the annotations attached to the selected objects", n),
             "annotate", AnnotateOn(sel), [])
  }

  function EraseItem(n: nat, sel: seq<Entry>): MenuItem {
    MenuItem("NautilusAnnotations::unannotate", "E_rase",
             NGettext("Remove the annotations attached to the selected object",
                      "Remove the annotations attached to the selected objects", n),
             "unannotate", UnannotateOn(sel), [])
  }

  /** The menu the provider returns for a classified selection of `n` entries. */
  function FileItems(kind: SelectionType, content: SelectionContent, n: nat, sel: seq<Entry>): seq<MenuItem> {
    if content.annotated then
      [MenuItem("NautilusAnnotations::annotations", AnnotationsLabel(kind, n),
                NGettext("Choose an action for the object's annotations",
                         "Choose an action for the objects' annotations", n),
                "unannotate", NoHandler, [EditItem(content, n, sel), EraseItem(n, sel)])]
    else
      [MenuItem("NautilusAnnotations::annotate", AnnotateLabel(kind, n),
                NGettext("Attach an annotation to the selected object",
                         "Attach an annotation to the selected objects", n),
                "annotate", AnnotateOn(sel), [])]
  }

  /** nautilus_annotations_get_file_items */
  method GetFileItems(host: Host, selection: seq<Entry>) returns (items: seq<MenuItem>)
    ensures items == FileItems(TypeOf(selection), ContentOf(host.store, selection), |selection|, selection)
  {
    var kind, content, sellen := Classify(host, selection);
    items := FileItems(kind, content, sellen, selection);
  }

  /** nautilus_annotations_get_background_items: the current folder as a selection
      of one entry. */
  method GetBackgroundItems(host: Host, folder: Entry) returns (items: seq<MenuItem>)
    ensures items == FileItems(TypeOf([folder]), ContentOf(host.store, [folder]), 1, [folder])
  {
    items := GetFileItems(host, [folder]);
  }

  /** Menu shape: an Edit + Erase submenu exactly when some entry is annotated,
      otherwise a single Annotate item; each handler gets the selection. */
  lemma MenuShape(kind: SelectionType, content: SelectionContent, n: nat, sel: seq<Entry>)
    ensures |FileItems(kind, content, n, sel)| == 1
    ensures FileItems(kind, content, n, sel)[0].submenu != [] <==> content.annotated
    ensures content.annotated ==>
              var top := FileItems(kind, content, n, sel)[0];
              top.activation == NoHandler && |top.submenu| == 2 &&
              top.submenu[0].activation == AnnotateOn(sel) && top.submenu[0].caption in {"_Edit", "_Edit and extend"} &&
              top.submenu[1].activation == UnannotateOn(sel) && top.submenu[1].caption == "E_rase"
    ensures !content.annotated ==>
              FileItems(kind, content, n, sel)[0].activation == AnnotateOn(sel)
  {
  }

  const DirectoryLabels: set<string> :=
    {"Directory's _annotations", "Directories' _annotations", "_Annotate directory", "_Annotate directories"}
  const FileLabels: set<string> :=
    {"File's _annotations", "Files' _annotations", "_Annotate file", "_Annotate files"}
  const ObjectLabels: set<string> := {"Objects' _annotations", "_Annotate objects"}
  const PluralLabels: set<string> :=
    {"Directories' _annotations", "_Annotate directories", "Files' _annotations", "_Annotate files"}

  /** The top item's label uses the directory wording only for a selection of
      directories alone, the file wording only for files alone, and the generic
      "objects" wording otherwise; its plural form is used exactly when more than
      one entry of a single kind is selected. */
  lemma {:induction false} TopLabelWording(kind: SelectionType, content: SelectionContent, n: nat, sel: seq<Entry>)
    ensures FileItems(kind, content, n, sel)[0].caption in DirectoryLabels <==> kind == DirectoriesOnly
    ensures FileItems(kind, content, n, sel)[0].caption in FileLabels <==> kind == FilesOnly
    ensures FileItems(kind, content, n, sel)[0].caption in ObjectLabels <==> kind != DirectoriesOnly && kind != FilesOnly
    ensures FileItems(kind, content, n, sel)[0].caption in PluralLabels <==>
              n > 1 && (kind == DirectoriesOnly || kind == FilesOnly)
  {
    var l := FileItems(kind, content, n, sel)[0].caption;
    assert l == if content.annotated then AnnotationsLabel(kind, n) else AnnotateLabel(kind, n);
    if kind == DirectoriesOnly && n > 1 {
      assert l in {"Directories' _annotations", "_Annotate directories"};
    } else if kind == DirectoriesOnly {
      assert l in {"Directory's _annotations", "_Annotate directory"};
    } else if kind == FilesOnly && n > 1 {
      assert l in {"Files' _annotations", "_Annotate files"};
    } else if kind == FilesOnly {
      assert l in {"File's _annotations", "_Annotate file"};
    } else {
      assert l in ObjectLabels;
    }
  }

  /** The tooltips that go through `g_dngettext` take the plural form exactly when
      more than one entry is selected; the Edit item reads "_Edit and extend"
      exactly when some entry is still unannotated. */
  lemma EditAndTips(kind: SelectionType, content: SelectionContent, n: nat, sel: seq<Entry>)
    ensures !content.annotated ==>
              (FileItems(kind, content, n, sel)[0].tip == "Attach an annotation to the selected objects" <==> n > 1)
    ensures content.annotated ==>
              (FileItems(kind, content, n, sel)[0].tip == "Choose an action for the objects' annotations" <==> n > 1)
    ensures content.annotated ==>
              (FileItems(kind, content, n, sel)[0].submenu[1].tip == "Remove the annotations attached to the selected objects" <==> n > 1)
    ensures content.annotated ==>
              (FileItems(kind, content, n, sel)[0].submenu[0].caption == "_Edit and extend" <==> content.unannotated)
    ensures content.annotated && !content.unannotated ==>
              (FileItems(kind, content, n, sel)[0].submenu[0].tip == "Edit the annotations attached to the selected objects" <==> n > 1)
  {
  }

  /** Three annotated files: a submenu whose first action reads "_Edit" (nothing is
      left to extend) and whose second reads "E_rase", labelled for several files. */
  lemma ThreeAnnotatedFiles(store: Store, sel: seq<Entry>)
    requires |sel| == 3
    requires forall i :: 0 <= i < 3 ==> !sel[i].isDirectory && store.Query(sel[i]).Annotated?
    ensures var top := FileItems(TypeOf(sel), ContentOf(store, sel), |sel|, sel)[0];
            top.caption == "Files' _annotations" &&
            top.submenu[0].caption == "_Edit" && top.submenu[1].caption == "E_rase"
  {
    assert TypeOf(sel) == FilesOnly by {
      assert !sel[0].isDirectory;
    }
    assert ContentOf(store, sel) == SelectionContent(true, false) by {
      assert store.Query(sel[0]).Annotated?;
    }
  }

  /** One unannotated directory: a single "_Annotate directory" item. */
  lemma OneUnannotatedDirectory(store: Store, dir: Entry)
    requires dir.isDirectory && store.Query(dir).Unannotated?
    ensures FileItems(TypeOf([dir]), ContentOf(store, [dir]), 1, [dir]) ==
            [MenuItem("NautilusAnnotations::annotate", "_Annotate directory",
                      "Attach an annotation to the selected object", "annotate", AnnotateOn([dir]), [])]
  {
    assert TypeOf([dir]) == DirectoriesOnly by {
      assert [dir][0].isDirectory;
    }
    assert ContentOf(store, [dir]) == SelectionContent(false, true) by {
      assert store.Query([dir][0]).Unannotated?;
    }
  }
}
