/** The annotation editor: opening a session on a selection (with the consensus
    scan over the entries' annotations), the discard button that follows the
    buffer's modified flag, committing on the dialog's response, and the
    stand-alone erase action. A confirmation dialog is modelled by the answer the
    user gives to it (`confirmed`); it is asked at most once per operation. */
module Editor {
  import opened Metadata
  import Title

  /** Response ids of the GTK 3 dialog API. */
  const GTK_RESPONSE_REJECT := -2
  const GTK_RESPONSE_DELETE_EVENT := -4

  /** How an attempt to open the editor ends. */
  datatype Opening =
    | NoSelection              // the menu item carries no selection (logged)
    | QueryAborted             // an entry's annotation could not be queried (logged)
    | Declined                 // annotations differ and the user declined a blank one
    | Open(initial: Option<string>)  // a session opens; `None` is a blank buffer

  /** The consensus scan from entry `i` on, `current` being the candidate so far:
      an absent annotation is skipped, the first present one becomes the
      candidate, an equal one continues, a differing one asks for confirmation. */
  function ScanFrom(store: Store, sel: seq<Entry>, i: nat, current: Option<string>, confirmed: bool): Opening
    requires i <= |sel|
    decreases |sel| - i
  {
    if i == |sel| then Open(current)
    else match store.Query(sel[i])
      case QueryFailed => QueryAborted
      case Unannotated => ScanFrom(store, sel, i + 1, current, confirmed)
      case Annotated(t) =>
        if current.None? || current.value == t then ScanFrom(store, sel, i + 1, Some(t), confirmed)
        else if confirmed then Open(None)
        else Declined
  }

  function Consensus(store: Store, sel: seq<Entry>, confirmed: bool): Opening {
    if sel == [] then NoSelection else ScanFrom(store, sel, 0, None, confirmed)
  }

  /** The scanning loop of nautilus_annotations_annotate. */
  method ScanAnnotations(host: Host, selection: seq<Entry>, confirmed: bool) returns (o: Opening)
    ensures o == Consensus(host.store, selection, confirmed)
  {
    if selection == [] {
      return NoSelection;
    }
    var current: Option<string> := None;
    var i := 0;
    while i < |selection|
      invariant 0 <= i <= |selection|
      invariant ScanFrom(host.store, selection, i, current, confirmed) == Consensus(host.store, selection, confirmed)
    {
      var probe := host.store.Query(selection[i]);
      if probe.QueryFailed? {
        return QueryAborted;
      }
      if probe.Annotated? {
        if current.None? {
          current := Some(probe.text);
        } else if probe.text != current.value {
          current := None;
          if confirmed {
            break;
          }
          return Declined;
        }
      }
      i := i + 1;
    }
    o := Open(current);
  }

  /** From entry `i` on, every annotation is absent or equal to `t`, and the
      candidate so far is none or `t`: the session opens on `t` if any was seen. */
  lemma {:induction false} AgreeFrom(store: Store, sel: seq<Entry>, i: nat, current: Option<string>, t: string, confirmed: bool)
    requires i <= |sel|
    requires current == None || current == Some(t)
    requires forall j :: i <= j < |sel| ==> store.Query(sel[j]) == Unannotated || store.Query(sel[j]) == Annotated(t)
    ensures ScanFrom(store, sel, i, current, confirmed) ==
            Open(if current.Some? || exists j :: i <= j < |sel| && store.Query(sel[j]).Annotated? then Some(t) else None)
    decreases |sel| - i
  {
    if i < |sel| {
      var next := if store.Query(sel[i]).Annotated? then Some(t) else current;
      AgreeFrom(store, sel, i + 1, next, t, confirmed);
      if store.Query(sel[i]).Annotated? {
        assert exists j :: i <= j < |sel| && store.Query(sel[j]).Annotated?;
      }
      assert (exists j :: i <= j < |sel| && store.Query(sel[j]).Annotated?) <==>
             store.Query(sel[i]).Annotated? || exists j :: i + 1 <= j < |sel| && store.Query(sel[j]).Annotated?;
    }
  }

  /** Every present annotation equals `t`, and some entry has one: the session
      opens with `t` in its buffer. */
  lemma AgreeingAnnotations(store: Store, sel: seq<Entry>, t: string, confirmed: bool)
    requires forall j :: 0 <= j < |sel| ==> store.Query(sel[j]) == Unannotated || store.Query(sel[j]) == Annotated(t)
    requires exists j :: 0 <= j < |sel| && store.Query(sel[j]).Annotated?
    ensures Consensus(store, sel, confirmed) == Open(Some(t))
  {
    AgreeFrom(store, sel, 0, None, t, confirmed);
  }

  /** No entry of a non-empty selection is annotated, and every query succeeds:
      the session opens with an empty buffer. */
  lemma NoAnnotations(store: Store, sel: seq<Entry>, confirmed: bool)
    requires sel != []
    requires forall j :: 0 <= j < |sel| ==> store.Query(sel[j]) == Unannotated
    ensures Consensus(store, sel, confirmed) == Open(None)
  {
    AgreeFrom(store, sel, 0, None, "", confirmed);
  }

  /** Some entry at `k` holds `b`, the candidate differs from `b`, and no query
      fails up to `k`: the scan ends in the confirmation prompt. */
  lemma {:induction false} ConflictAhead(store: Store, sel: seq<Entry>, i: nat, current: Option<string>, k: nat, b: string, confirmed: bool)
    requires i <= k < |sel|
    requires current.Some? && current.value != b
    requires store.Query(sel[k]) == Annotated(b)
    requires forall m :: i <= m <= k ==> sel[m] !in store.unreadable
    ensures ScanFrom(store, sel, i, current, confirmed) == if confirmed then Open(None) else Declined
    decreases k - i
  {
    if i < k && store.Query(sel[i]) != Annotated(b) {
      match store.Query(sel[i])
      case Unannotated =>
        ConflictAhead(store, sel, i + 1, current, k, b, confirmed);
      case Annotated(t) =>
        if t == current.value {
          ConflictAhead(store, sel, i + 1, current, k, b, confirmed);
        }
    }
  }

  lemma {:induction false} ConflictBetween(store: Store, sel: seq<Entry>, i: nat, current: Option<string>,
                                           j: nat, a: string, k: nat, b: string, confirmed: bool)
    requires i <= j < k < |sel| && a != b
    requires store.Query(sel[j]) == Annotated(a) && store.Query(sel[k]) == Annotated(b)
    requires forall m :: i <= m <= k ==> sel[m] !in store.unreadable
    ensures ScanFrom(store, sel, i, current, confirmed) == if confirmed then Open(None) else Declined
    decreases j - i
  {
    match store.Query(sel[i])
    case Unannotated =>
      ConflictBetween(store, sel, i + 1, current, j, a, k, b, confirmed);
    case Annotated(t) =>
      if current.None? || current.value == t {
        if i < j {
          ConflictBetween(store, sel, i + 1, Some(t), j, a, k, b, confirmed);
        } else {
          ConflictAhead(store, sel, i + 1, Some(a), k, b, confirmed);
        }
      }
  }

  /** Two entries hold different annotations and every query up to the later one
      succeeds: declining the prompt opens no session, confirming it opens a
      blank one. */
  lemma DifferingAnnotations(store: Store, sel: seq<Entry>, j: nat, k: nat, confirmed: bool)
    requires j < k < |sel|
    requires store.Query(sel[j]).Annotated? && store.Query(sel[k]).Annotated?
    requires store.Query(sel[j]).text != store.Query(sel[k]).text
    requires forall m :: 0 <= m <= k ==> sel[m] !in store.unreadable
    ensures Consensus(store, sel, confirmed) == if confirmed then Open(None) else Declined
  {
    ConflictBetween(store, sel, 0, None, j, store.Query(sel[j]).text, k, store.Query(sel[k]).text, confirmed);
  }

  lemma {:induction false} AbortFrom(store: Store, sel: seq<Entry>, i: nat, current: Option<string>, k: nat, t: string, confirmed: bool)
    requires i <= k < |sel|
    requires current == None || current == Some(t)
    requires forall m :: i <= m < k ==> store.Query(sel[m]) == Unannotated || store.Query(sel[m]) == Annotated(t)
    requires sel[k] in store.unreadable
    ensures ScanFrom(store, sel, i, current, confirmed) == QueryAborted
    decreases k - i
  {
    if i < k {
      AbortFrom(store, sel, i + 1, if store.Query(sel[i]).Annotated? then Some(t) else current, k, t, confirmed);
    }
  }

  /** A query that fails before any two annotations have differed aborts the
      open: no session, whatever the user would have answered. */
  lemma QueryFailureAborts(store: Store, sel: seq<Entry>, k: nat, t: string, confirmed: bool)
    requires k < |sel| && sel[k] in store.unreadable
    requires forall m :: 0 <= m < k ==> store.Query(sel[m]) == Unannotated || store.Query(sel[m]) == Annotated(t)
    ensures Consensus(store, sel, confirmed) == QueryAborted
  {
    AbortFrom(store, sel, 0, None, k, t, confirmed);
  }

  /** Round trip: after a session saves `t` on a selection whose entries can all
      be read and written, opening the editor on it again shows `t`; after an
      erase it shows an empty buffer. */
  lemma SaveThenReopen(store: Store, sel: seq<Entry>, t: string, confirmed: bool)
    requires sel != []
    requires forall j :: 0 <= j < |sel| ==> sel[j] !in store.unreadable && sel[j] !in store.unwritable
    ensures Consensus(Written(store, sel, Some(t)), sel, confirmed) == Open(Some(t))
    ensures Consensus(Written(store, sel, None), sel, confirmed) == Open(None)
  {
    forall j | 0 <= j < |sel|
      ensures Written(store, sel, Some(t)).Query(sel[j]) == Annotated(t)
      ensures Written(store, sel, None).Query(sel[j]) == Unannotated
    {
      QueryAfterWrite(store, sel, Some(t), sel[j]);
      QueryAfterWrite(store, sel, None, sel[j]);
    }
    AgreeingAnnotations(Written(store, sel, Some(t)), sel, t, confirmed);
    NoAnnotations(Written(store, sel, None), sel, confirmed);
  }

  /** What the modified-changed handler does with the discard button. */
  datatype ButtonOp = DestroyButton | CreateButton | LeaveButton

  /** Whether a button exists after `op`. */
  function ButtonAfter(op: ButtonOp, hasButton: bool): bool {
    match op
    case DestroyButton => false
    case CreateButton => true
    case LeaveButton => hasButton
  }

  /** `(modified << 1) | (discard_button == NULL)` */
  function SwitchCode(modified: bool, hasButton: bool): nat {
    (if modified then 2 else 0) + (if hasButton then 0 else 1)
  }

  /** The switch of on_text_modified_state_change: afterwards a button exists
      exactly when the buffer is modified; a button is only created when none
      exists and only destroyed when one does, and a redundant call (the flag
      already matches the button) changes nothing. */
  function DiscardStep(modified: bool, hasButton: bool): (op: ButtonOp)
    ensures ButtonAfter(op, hasButton) == modified
    ensures op == CreateButton ==> !hasButton
    ensures op == DestroyButton ==> hasButton
    ensures hasButton == modified ==> op == LeaveButton
  {
    match SwitchCode(modified, hasButton)
    case 0 => DestroyButton
    case 3 => CreateButton
    case _ => LeaveButton
  }

  /** What writes a commit performs on the selection. */
  datatype Write = NoWrite | EraseAll | SaveAll(text: string)

  datatype Verdict = KeepSession | DestroySession(write: Write) {
    function Writes(): Write {
      if KeepSession? then NoWrite else write
    }
  }

  /** The decision of on_annotation_dialog_response, given the buffer's modified
      flag and text, the response id and the answer to the discard prompt. */
  function Decide(modified: bool, text: string, responseId: int, confirmed: bool): (v: Verdict)
    ensures !modified ==> v == DestroySession(NoWrite)
    ensures v == KeepSession <==> modified && responseId == GTK_RESPONSE_REJECT && !confirmed
    ensures v.Writes() != NoWrite <==> modified && responseId == GTK_RESPONSE_DELETE_EVENT
    ensures v.Writes() == EraseAll <==> modified && responseId == GTK_RESPONSE_DELETE_EVENT && text == ""
    ensures v.Writes().SaveAll? ==> v.Writes().text == text && text != ""
  {
    if !modified then DestroySession(NoWrite)
    else if responseId == GTK_RESPONSE_DELETE_EVENT then
      DestroySession(if text == "" then EraseAll else SaveAll(text))
    else if responseId == GTK_RESPONSE_REJECT && !confirmed then KeepSession
    else DestroySession(NoWrite)
  }

  /** The store after a commit's writes. */
  function StoreAfter(store: Store, files: seq<Entry>, w: Write): Store {
    match w
    case NoWrite => store
    case EraseAll => Written(store, files, None)
    case SaveAll(t) => Written(store, files, Some(t))
  }

  /** The entries whose cached information a commit's writes invalidate. */
  function InvalidatedBy(store: Store, files: seq<Entry>, w: Write): set<Entry> {
    if w == NoWrite then {} else Writable(store, files)
  }

  /** A commit: an erase leaves the attribute absent on every writable selected
      entry, a save sets it to exactly the text there; every entry outside the
      selection, and every entry whose write fails, keeps its annotation. */
  lemma CommitEffect(store: Store, files: seq<Entry>, w: Write, e: Entry)
    ensures w == NoWrite ==> StoreAfter(store, files, w) == store
    ensures w != NoWrite && e in files && e !in store.unwritable && e !in store.unreadable ==>
              StoreAfter(store, files, w).Query(e) == if w.SaveAll? then Annotated(w.text) else Unannotated
    ensures e !in files || e in store.unwritable ==> StoreAfter(store, files, w).Query(e) == store.Query(e)
  {
    match w
    case NoWrite =>
    case EraseAll => QueryAfterWrite(store, files, None, e);
    case SaveAll(t) => QueryAfterWrite(store, files, Some(t), e);
  }

  /** One open annotation dialog. */
  class Session {
    /** The session's private copy of the selection. */
    const files: seq<Entry>
    /** The text buffer's content and its modified flag. */
    var text: string
    var modified: bool
    /** Whether the "Discard changes" button is in the dialog. */
    var hasDiscardButton: bool
    /** False once the session has been destroyed. */
    var open: bool
    var title: string
    var defaultSize: (nat, nat)
    ghost var buttonsCreated: nat
    ghost var buttonsDestroyed: nat

    /** Every discard button created has been destroyed, except the one in the
        dialog. */
    ghost predicate Valid()
      reads this
    {
      buttonsCreated == buttonsDestroyed + (if hasDiscardButton then 1 else 0)
    }

    /** session_allocate with the initial text loaded as a not-undoable action and
        the modified flag cleared: the session starts with no discard button. */
    constructor (files: seq<Entry>, initial: Option<string>)
      ensures Valid() && open
      ensures this.files == files && text == initial.GetOr("")
      ensures !modified && !hasDiscardButton && buttonsCreated == 0
    {
      this.files := files;
      text := initial.GetOr("");
      modified := false;
      hasDiscardButton := false;
      open := true;
      title := Title.GenericTitle;
      defaultSize := (0, 0);
      buttonsCreated, buttonsDestroyed := 0, 0;
    }

    /** The title and default size set by show_annotations. */
    method Show(home: Option<string>, workWidth: nat, workHeight: nat)
      requires Title.TitleDefined(files, home)
      modifies this
      ensures title == Title.WindowTitle(files, home)
      ensures defaultSize == Title.DefaultSize(workWidth, workHeight)
      ensures text == old(text) && modified == old(modified) && open == old(open)
      ensures hasDiscardButton == old(hasDiscardButton)
      ensures buttonsCreated == old(buttonsCreated) && buttonsDestroyed == old(buttonsDestroyed)
    {
      title := Title.ComputeTitle(files, home);
      defaultSize := Title.DefaultSize(workWidth, workHeight);
    }

    /** The user edits the buffer; the buffer sets its own modified flag. */
    method BufferChanged(newText: string, nowModified: bool)
      requires open
      modifies this
      ensures text == newText && modified == nowModified
      ensures open && title == old(title) && defaultSize == old(defaultSize)
      ensures hasDiscardButton == old(hasDiscardButton)
      ensures buttonsCreated == old(buttonsCreated) && buttonsDestroyed == old(buttonsDestroyed)
    {
      text, modified := newText, nowModified;
    }

    /** on_text_modified_state_change */
    method OnTextModifiedStateChange()
      requires Valid() && open
      modifies this
      ensures Valid()
      ensures hasDiscardButton == modified
      ensures var op := DiscardStep(old(modified), old(hasDiscardButton));
              buttonsCreated == old(buttonsCreated) + (if op == CreateButton then 1 else 0) &&
              buttonsDestroyed == old(buttonsDestroyed) + (if op == DestroyButton then 1 else 0)
      ensures text == old(text) && modified == old(modified) && open
      ensures title == old(title) && defaultSize == old(defaultSize)
    {
      match SwitchCode(modified, hasDiscardButton) {
        case 0 =>
          hasDiscardButton := false;
          buttonsDestroyed := buttonsDestroyed + 1;
        case 3 =>
          hasDiscardButton := true;
          buttonsCreated := buttonsCreated + 1;
        case _ =>
      }
    }

    /** on_annotation_dialog_response: an unmodified buffer is closed without
        writing; a close with an empty text erases the annotation of every entry,
        with a text sets it on every entry; the discard response asks for
        confirmation and keeps the session when declined; any other response
        closes without writing. */
    method OnAnnotationDialogResponse(host: Host, responseId: int, confirmed: bool)
      requires open
      modifies this, host
      ensures var v := Decide(old(modified), old(text), responseId, confirmed);
              open == v.KeepSession? &&
              host.store == StoreAfter(old(host.store), files, v.Writes()) &&
              host.invalidated == old(host.invalidated) + InvalidatedBy(old(host.store), files, v.Writes())
      ensures text == old(text) && modified == old(modified) && hasDiscardButton == old(hasDiscardButton)
      ensures buttonsCreated == old(buttonsCreated) && buttonsDestroyed == old(buttonsDestroyed)
      ensures title == old(title) && defaultSize == old(defaultSize)
    {
      if !modified {
        open := false;
        return;
      }
      if responseId == GTK_RESPONSE_DELETE_EVENT {
        if text == "" {
          host.EraseAnnotations(files);
        } else {
          host.WriteAll(files, Some(text));
        }
      } else if responseId == GTK_RESPONSE_REJECT {
        if !confirmed {
          return;
        }
      }
      open := false;
    }
  }

  /** nautilus_annotations_annotate: the scan, then a session with the agreed
      text (or a blank buffer) that is not marked modified. Nothing is written. */
  method Annotate(host: Host, selection: seq<Entry>, confirmed: bool, allocates: bool,
                  home: Option<string>, workWidth: nat, workHeight: nat) returns (session: Session?)
    requires Consensus(host.store, selection, confirmed).Open? && allocates ==> Title.TitleDefined(selection, home)
    ensures var o := Consensus(host.store, selection, confirmed);
            (session != null <==> o.Open? && allocates) &&
            (session != null ==>
               fresh(session) && session.Valid() && session.open && session.files == selection &&
               session.text == o.initial.GetOr("") && !session.modified && !session.hasDiscardButton &&
               session.title == Title.WindowTitle(selection, home) &&
               session.defaultSize == Title.DefaultSize(workWidth, workHeight))
  {
    var o := ScanAnnotations(host, selection, confirmed);
    if !o.Open? || !allocates {
      return null;
    }
    session := new Session(selection, o.initial);
    session.Show(home, workWidth, workHeight);
  }

  /** nautilus_annotations_unannotate: behind a confirmation, erases the
      annotation of every selected entry; an empty selection is only logged. */
  method Unannotate(host: Host, selection: seq<Entry>, confirmed: bool)
    modifies host
    ensures host.store == if selection != [] && confirmed then Written(old(host.store), selection, None) else old(host.store)
    ensures host.invalidated == old(host.invalidated) +
              if selection != [] && confirmed then Writable(old(host.store), selection) else {}
  {
    if selection == [] {
      return;
    }
    if confirmed {
      host.EraseAnnotations(selection);
    }
  }
}
