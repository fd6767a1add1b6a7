/**
 * The lock-guarded file store (FileService.java). The repository behind it is a map
 * from file name to content; the readers-writer lock is kept as ghost hold counters,
 * and the repository calls made are logged as a mock would record them.
 */
module Service {
  import opened Wrappers
  import opened Files

  /** The repository's rows: file name to content. */
  type Store = map<string, string>

  /** How the simulated database delay ends: it runs out, or the sleeping thread is interrupted. */
  datatype Delay = Elapsed | Interrupted

  /** One call on the repository. */
  datatype RepoCall = FindById(name: string) | Save(name: string, content: string) | DeleteById(name: string)

  function Lookup(m: Store, name: string): Option<string> {
    if name in m then Some(m[name]) else None
  }

  /** The store after `deleteFile(name)`: the entry goes if it is there, nothing else changes. */
  function AfterDelete(m: Store, name: string): (r: Store)
    ensures r.Keys == m.Keys - {name}
    ensures forall k :: k in r ==> r[k] == m[k]
    ensures name !in m ==> r == m
  {
    if name in m then m - {name} else m
  }

  /** The store after `setContentToFile(name, content)`: an existing entry gets the content; no entry is created. */
  function AfterSetContent(m: Store, name: string, content: string): (r: Store)
    ensures r.Keys == m.Keys
    ensures name in m ==> r[name] == content
    ensures forall k :: k in m && k != name ==> r[k] == m[k]
    ensures name !in m ==> r == m
  {
    if name in m then m[name := content] else m
  }

  /** The store after `saveFile`: an upsert of the entry, whether or not it existed. */
  function AfterSave(m: Store, name: string, content: string): (r: Store)
    ensures r.Keys == m.Keys + {name}
    ensures r[name] == content
    ensures forall k :: k in m && k != name ==> r[k] == m[k]
  {
    m[name := content]
  }

  /** Read-your-write: a lookup right after a save finds the saved content. */
  lemma SaveThenGet(m: Store, name: string, content: string)
    ensures Lookup(AfterSave(m, name, content), name) == Some(content)
  {
  }

  /** Saving the same record twice leaves the store as saving it once. */
  lemma SaveIdempotent(m: Store, name: string, content: string)
    ensures AfterSave(AfterSave(m, name, content), name, content) == AfterSave(m, name, content)
  {
  }

  /** Deleting twice leaves the store as deleting once; the second delete is a no-op. */
  lemma DeleteIdempotent(m: Store, name: string)
    ensures AfterDelete(AfterDelete(m, name), name) == AfterDelete(m, name)
  {
  }

  /** How many of the logged calls are `findById` lookups. */
  function Lookups(calls: seq<RepoCall>): nat
    decreases |calls|
  {
    if calls == [] then 0
    else Lookups(calls[..|calls| - 1]) + if calls[|calls| - 1].FindById? then 1 else 0
  }

  /** Lookups in a log made of two parts are the lookups of each part. */
  lemma {:induction false} LookupsAppend(a: seq<RepoCall>, b: seq<RepoCall>)
    ensures Lookups(a + b) == Lookups(a) + Lookups(b)
    decreases |b|
  {
    if b == [] {
      assert a + b == a;
    } else {
      var b' := b[..|b| - 1];
      assert (a + b)[..|a + b| - 1] == a + b';
      assert (a + b)[|a + b| - 1] == b[|b| - 1];
      LookupsAppend(a, b');
    }
  }

  class FileService {
    /** The repository's contents. */
    var store: Store
    /** Read-lock and write-lock holds taken by the caller and not yet released. */
    ghost var readHolds: nat
    ghost var writeHolds: nat
    /** Every repository call made so far, in order. */
    ghost var calls: seq<RepoCall>

    /** The service over an injected repository holding `initial`, with the lock free. */
    constructor (initial: Store)
      ensures store == initial && readHolds == 0 && writeHolds == 0 && calls == []
    {
      store := initial;
      readHolds, writeHolds := 0, 0;
      calls := [];
    }

    /** Repository `findById`: a pure lookup, allowed under either lock. */
    method FindByIdLocked(name: string) returns (r: Option<string>)
      requires readHolds > 0 || writeHolds > 0
      modifies this`calls
      ensures r == Lookup(store, name)
      ensures calls == old(calls) + [FindById(name)]
    {
      r := Lookup(store, name);
      calls := calls + [FindById(name)];
    }

    /** Repository `save`: an upsert, allowed only under the write lock. */
    method SaveLocked(file: File)
      requires writeHolds > 0
      modifies this`store, this`calls
      ensures store == AfterSave(old(store), file.name, file.content)
      ensures calls == old(calls) + [Save(file.name, file.content)]
    {
      store := store[file.name := file.content];
      calls := calls + [Save(file.name, file.content)];
    }

    /** Repository `deleteById`, allowed only under the write lock. */
    method DeleteByIdLocked(name: string)
      requires writeHolds > 0
      modifies this`store, this`calls
      ensures store == AfterDelete(old(store), name)
      ensures calls == old(calls) + [DeleteById(name)]
    {
      store := store - {name};
      calls := calls + [DeleteById(name)];
    }

    /**
     * `getFile(name)`: under the read lock, after the delay, a fresh record with the
     * stored content, or null on a miss. The store never changes. `completed` is false
     * when the delay was interrupted and the operation aborted.
     */
    method GetFile(name: string, delay: Delay) returns (completed: bool, file: File?)
      modifies this
      ensures readHolds == old(readHolds) && writeHolds == old(writeHolds)
      ensures store == old(store)
      ensures completed <==> delay == Elapsed
      ensures completed && name in store ==> file != null && fresh(file) && file.name == name && file.content == store[name]
      ensures !completed || name !in store ==> file == null
      ensures calls == old(calls) + if completed then [FindById(name)] else []
    {
      readHolds := readHolds + 1;  // take the read lock
      file := null;
      completed := delay == Elapsed;
      if completed {
        var found := FindByIdLocked(name);
        if found.Some? {
          file := new File(name, found.value);
        }
      }
      readHolds := readHolds - 1;  // released on every path
    }

    /**
     * `deleteFile(name)`: under the write lock, after the delay, removes the entry only
     * when the lookup finds it; on a miss there is no `deleteById` call.
     */
    method DeleteFile(name: string, delay: Delay) returns (completed: bool)
      requires readHolds == 0
      modifies this
      ensures readHolds == old(readHolds) && writeHolds == old(writeHolds)
      ensures completed <==> delay == Elapsed
      ensures store == if completed then AfterDelete(old(store), name) else old(store)
      ensures calls == old(calls) +
        if !completed then []
        else if name in old(store) then [FindById(name), DeleteById(name)]
        else [FindById(name)]
    {
      writeHolds := writeHolds + 1;  // take the write lock
      completed := delay == Elapsed;
      if completed {
        var found := FindByIdLocked(name);
        if found.Some? {
          DeleteByIdLocked(name);
        }
      }
      writeHolds := writeHolds - 1;  // released on every path
    }

    /**
     * `setContentToFile(name, content)`: under the write lock, after the delay, the
     * found record gets the new content and is saved back; on a miss nothing is saved
     * and no entry is created.
     */
    method SetContentToFile(name: string, content: string, delay: Delay) returns (completed: bool)
      requires readHolds == 0
      modifies this
      ensures readHolds == old(readHolds) && writeHolds == old(writeHolds)
      ensures completed <==> delay == Elapsed
      ensures store == if completed then AfterSetContent(old(store), name, content) else old(store)
      ensures calls == old(calls) +
        if !completed then []
        else if name in old(store) then [FindById(name), Save(name, content)]
        else [FindById(name)]
    {
      writeHolds := writeHolds + 1;  // take the write lock
      completed := delay == Elapsed;
      if completed {
        var found := FindByIdLocked(name);
        if found.Some? {
          var file := new File(name, found.value);
          file.SetContent(content);
          SaveLocked(file);
        }
      }
      writeHolds := writeHolds - 1;  // released on every path
    }

    /** `saveFile(file)`: under the write lock, after the delay, one upsert of the record. */
    method SaveFile(file: File, delay: Delay) returns (completed: bool)
      requires readHolds == 0
      modifies this
      ensures readHolds == old(readHolds) && writeHolds == old(writeHolds)
      ensures completed <==> delay == Elapsed
      ensures store == if completed then AfterSave(old(store), file.name, file.content) else old(store)
      ensures calls == old(calls) + if completed then [Save(file.name, file.content)] else []
    {
      writeHolds := writeHolds + 1;  // take the write lock
      completed := delay == Elapsed;
      if completed {
        SaveLocked(file);
      }
      writeHolds := writeHolds - 1;  // released on every path
    }
  }
}
