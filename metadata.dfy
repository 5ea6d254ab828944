/** The filesystem metadata the extension reads and writes: one string attribute,
    `metadata::annotation`, per entry. Reads and writes can fail per entry; every
    successful write invalidates the host's cached information for that entry. */
module Metadata {

  datatype Option<+T> = None | Some(value: T) {
    function GetOr(default: T): T {
      match this
      case Some(v) => v
      case None => default
    }
  }

  /** A file-system entry as the host hands it over: an identity, whether it is a
      directory, and its local path (`None` when the location has no local path). */
  datatype Entry = Entry(id: nat, isDirectory: bool, path: Option<string>)

  /** What querying the annotation attribute of one entry yields. */
  datatype Probe = QueryFailed | Unannotated | Annotated(text: string)

  /** The metadata store: the annotation of each entry that has one, the entries
      whose attributes cannot be queried, and those whose attributes cannot be set. */
  datatype Store = Store(annotations: map<Entry, string>, unreadable: set<Entry>, unwritable: set<Entry>) {

    /** g_file_query_info followed by g_file_info_get_attribute_string */
    function Query(e: Entry): Probe {
      if e in unreadable then QueryFailed
      else if e in annotations then Annotated(annotations[e])
      else Unannotated
    }

    /** A successful attribute write: `Some(t)` sets the string, `None` unsets it
        (the attribute type `G_FILE_ATTRIBUTE_TYPE_INVALID`). */
    function Set(e: Entry, v: Option<string>): Store {
      match v
      case Some(t) => this.(annotations := annotations[e := t])
      case None => this.(annotations := annotations - {e})
    }
  }

  /** The store after writing `v` to every entry of `files` in order, skipping the
      entries whose write fails. */
  function Written(store: Store, files: seq<Entry>, v: Option<string>): Store
    decreases |files|
  {
    if files == [] then store
    else
      var next := if files[0] in store.unwritable then store else store.Set(files[0], v);
      Written(next, files[1..], v)
  }

  /** The entries of `files` whose write succeeds. */
  function Writable(store: Store, files: seq<Entry>): set<Entry> {
    set e | e in files && e !in store.unwritable
  }

  /** Writing `v` to a selection: every writable selected entry ends up holding `v`
      (absent when `v` is `None`), and every other entry keeps what it had. */
  lemma {:induction false} WrittenAt(store: Store, files: seq<Entry>, v: Option<string>, e: Entry)
    ensures Written(store, files, v).unreadable == store.unreadable
    ensures Written(store, files, v).unwritable == store.unwritable
    ensures e in files && e !in store.unwritable ==>
              (e in Written(store, files, v).annotations <==> v.Some?) &&
              (v.Some? ==> Written(store, files, v).annotations[e] == v.value)
    ensures e !in files || e in store.unwritable ==>
              (e in Written(store, files, v).annotations <==> e in store.annotations) &&
              (e in store.annotations ==> Written(store, files, v).annotations[e] == store.annotations[e])
    decreases |files|
  {
    if files != [] {
      var next := if files[0] in store.unwritable then store else store.Set(files[0], v);
      WrittenAt(next, files[1..], v, e);
      assert files == [files[0]] + files[1..];
      assert e in files <==> e == files[0] || e in files[1..];
    }
  }

  /** The same, seen through a query: after the write a readable, writable selected
      entry reports exactly `v`; any other entry reports what it reported before. */
  lemma QueryAfterWrite(store: Store, files: seq<Entry>, v: Option<string>, e: Entry)
    ensures e in files && e !in store.unwritable && e !in store.unreadable ==>
              Written(store, files, v).Query(e) == (if v.Some? then Annotated(v.value) else Unannotated)
    ensures !(e in files && e !in store.unwritable && e !in store.unreadable) ==>
              Written(store, files, v).Query(e) == store.Query(e)
  {
    WrittenAt(store, files, v, e);
  }

  /** The host: the metadata store together with the set of entries whose cached
      extension information has been invalidated (so their emblems are refreshed). */
  class Host {
    var store: Store
    var invalidated: set<Entry>

    constructor (initial: Store)
      ensures store == initial && invalidated == {}
    {
      store := initial;
      invalidated := {};
    }

    /** g_file_set_attribute / g_file_set_attribute_string on one entry */
    method SetAttribute(e: Entry, v: Option<string>) returns (ok: bool)
      modifies this
      ensures ok <==> e !in old(store).unwritable
      ensures store == if ok then old(store).Set(e, v) else old(store)
      ensures invalidated == old(invalidated)
    {
      ok := e !in store.unwritable;
      if ok {
        store := store.Set(e, v);
      }
    }

    /** nautilus_file_info_invalidate_extension_info */
    method InvalidateExtensionInfo(e: Entry)
      modifies this
      ensures store == old(store)
      ensures invalidated == old(invalidated) + {e}
    {
      invalidated := invalidated + {e};
    }

    /** Writes `v` to every entry of `files`; a failing entry is skipped (the source
        logs it) and the others are still written; every success is invalidated. */
    method WriteAll(files: seq<Entry>, v: Option<string>)
      modifies this
      ensures store == Written(old(store), files, v)
      ensures invalidated == old(invalidated) + Writable(old(store), files)
    {
      ghost var store0 := store;
      var i := 0;
      while i < |files|
        invariant 0 <= i <= |files|
        invariant store.unwritable == store0.unwritable
        invariant Written(store0, files, v) == Written(store, files[i..], v)
        invariant invalidated == old(invalidated) + Writable(store0, files[..i])
      {
        assert files[i..][1..] == files[i + 1..];
        var ok := SetAttribute(files[i], v);
        if ok {
          InvalidateExtensionInfo(files[i]);
        }
        assert files[..i + 1] == files[..i] + [files[i]];
        assert Writable(store0, files[..i + 1]) ==
               Writable(store0, files[..i]) + (if ok then {files[i]} else {});
        i := i + 1;
      }
      assert files[..i] == files;
    }

    /** erase_annotations: unsets the annotation on every selected entry. */
    method EraseAnnotations(files: seq<Entry>)
      modifies this
      ensures store == Written(old(store), files, None)
      ensures invalidated == old(invalidated) + Writable(old(store), files)
    {
      WriteAll(files, None);
    }
  }
}
