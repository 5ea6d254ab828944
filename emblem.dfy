/** The info provider: decides whether an entry's icon carries the annotation
    emblem. */
module Emblem {
  import opened Metadata
  import Classifier

  datatype OperationResult = Complete | Failed

  /** The outcome of updating one entry's information: the status returned to
      the host and the emblem added to the entry, if any. */
  datatype InfoUpdate = InfoUpdate(status: OperationResult, emblem: Option<string>)

  const AnnotationEmblem := "emblem-annotations"

  /** nautilus_annotations_update_file_info */
  function UpdateFileInfo(store: Store, e: Entry): (r: InfoUpdate)
    ensures r.status == Failed <==> e in store.unreadable
    ensures r.status == Failed ==> r.emblem == None
    ensures r.emblem.Some? <==> e !in store.unreadable && e in store.annotations
    ensures r.emblem.Some? ==> r.emblem.value == AnnotationEmblem
  {
    match store.Query(e)
    case QueryFailed => InfoUpdate(Failed, None)
    case Annotated(_) => InfoUpdate(Complete, Some(AnnotationEmblem))
    case Unannotated => InfoUpdate(Complete, None)
  }

  /** The emblem agrees with the menu: an entry shows the emblem exactly when the
      menu for that entry alone offers the Edit/Erase submenu. */
  lemma EmblemAgreesWithMenu(store: Store, e: Entry)
    ensures UpdateFileInfo(store, e).emblem.Some? <==> Classifier.ContentOf(store, [e]).annotated
  {
    assert [e][0] == e;
  }

  /** After the editor saves a non-empty text on a readable, writable selected
      entry the emblem appears; after an erase it disappears. */
  lemma EmblemAfterWrite(store: Store, files: seq<Entry>, v: Option<string>, e: Entry)
    requires e in files && e !in store.unwritable && e !in store.unreadable
    ensures UpdateFileInfo(Written(store, files, v), e) ==
            InfoUpdate(Complete, if v.Some? then Some(AnnotationEmblem) else None)
  {
    QueryAfterWrite(store, files, v, e);
  }
}
