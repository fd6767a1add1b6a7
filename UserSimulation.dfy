/**
 * The workload driver (UserSimulation.java): it names the files, seeds each with a
 * fixed content and lets simulated users each read or overwrite one file. The random
 * draws are parameters, and the run is the sequential interleaving "all seed saves,
 * then the users in order".
 */
module Simulation {
  import opened Decimal
  import opened Files
  import opened Service

  /** The content every seeded file starts with. */
  const SeedContent := "Random: "

  /** The i-th generated file name, `"file_" + i`. */
  function FileName(i: nat): string {
    "file_" + FromNat(i)
  }

  /** Generated names are pairwise distinct. */
  lemma FileNameInjective(i: nat, j: nat)
    ensures FileName(i) == FileName(j) <==> i == j
  {
    if FileName(i) == FileName(j) {
      assert FileName(i)[5..] == FromNat(i);
      assert FileName(j)[5..] == FromNat(j);
      FromNatInjective(i, j);
    }
  }

  /** The names `init` generates for `n` files: `file_0` ... `file_{n-1}`, none when `n` is not positive. */
  function FileNames(n: int): (names: seq<string>)
    ensures |names| == if n < 0 then 0 else n
    ensures forall i :: 0 <= i < |names| ==> names[i] == FileName(i)
    decreases n
  {
    if n <= 0 then [] else FileNames(n - 1) + [FileName(n - 1)]
  }

  /** No generated name occurs twice. */
  lemma FileNamesDistinct(n: int)
    ensures forall i, j :: 0 <= i < j < |FileNames(n)| ==> FileNames(n)[i] != FileNames(n)[j]
  {
    forall i, j | 0 <= i < j < |FileNames(n)|
      ensures FileNames(n)[i] != FileNames(n)[j]
    {
      FileNameInjective(i, j);
    }
  }

  /** The store after one seed save per name, in order. */
  function Seeded(m: Store, names: seq<string>): Store
    decreases |names|
  {
    if names == [] then m
    else AfterSave(Seeded(m, names[..|names| - 1]), names[|names| - 1], SeedContent)
  }

  /** After seeding, every name holds the seed content, and only the names were added. */
  lemma {:induction false} SeededHoldsSeed(m: Store, names: seq<string>)
    ensures Seeded(m, names).Keys == m.Keys + set n | n in names
    ensures forall n :: n in names ==> Seeded(m, names)[n] == SeedContent
    ensures forall k :: k in m && k !in names ==> Seeded(m, names)[k] == m[k]
    decreases |names|
  {
    if names != [] {
      var init := names[..|names| - 1];
      SeededHoldsSeed(m, init);
      assert forall n :: n in names <==> n in init || n == names[|names| - 1];
    }
  }

  /** Seeding one more name extends the store's history and the call log by that name's save. */
  lemma SeedPrefixStep(m: Store, names: seq<string>, i: nat)
    requires i < |names|
    ensures Seeded(m, names[..i + 1]) == AfterSave(Seeded(m, names[..i]), names[i], SeedContent)
    ensures SeedCalls(names[..i + 1]) == SeedCalls(names[..i]) + [Save(names[i], SeedContent)]
  {
    assert names[..i + 1][..i] == names[..i];
  }

  /** What one simulated user draws: the index of its file, whether it writes, and the number it would write. */
  datatype UserDraw = UserDraw(index: int, write: bool, value: int32)

  /** The store after one user: a write of the number's decimal text, or a read. */
  function UserStep(m: Store, name: string, write: bool, value: int32): (r: Store)
    ensures r.Keys == m.Keys
    ensures write && name in m ==> r[name] == FromInt(value as int)
    ensures forall k :: k in m && (k != name || !write) ==> r[k] == m[k]
  {
    if write then AfterSetContent(m, name, FromInt(value as int)) else m
  }

  /** Every draw picks a valid index into `names`. */
  predicate IndexesIn(draws: seq<UserDraw>, count: int) {
    forall k :: 0 <= k < |draws| ==> 0 <= draws[k].index < count
  }

  /** The store after the first `n` users run one after another. */
  function UsersRun(m: Store, names: seq<string>, draws: seq<UserDraw>, n: nat): Store
    requires IndexesIn(draws, |names|) && n <= |draws|
  {
    if n == 0 then m
    else
      var d := draws[n - 1];
      UserStep(UsersRun(m, names, draws, n - 1), names[d.index], d.write, d.value)
  }

  /** Users never delete and a content update never creates: the key set stays as it was. */
  lemma {:induction false} UsersRunKeepsKeys(m: Store, names: seq<string>, draws: seq<UserDraw>, n: nat)
    requires IndexesIn(draws, |names|) && n <= |draws|
    ensures UsersRun(m, names, draws, n).Keys == m.Keys
  {
    if n > 0 {
      UsersRunKeepsKeys(m, names, draws, n - 1);
    }
  }

  /** The repository calls of one seed save per name, in order. */
  function SeedCalls(names: seq<string>): (r: seq<RepoCall>)
    ensures |r| == |names|
    ensures forall i :: 0 <= i < |names| ==> r[i] == Save(names[i], SeedContent)
    decreases |names|
  {
    if names == [] then []
    else SeedCalls(names[..|names| - 1]) + [Save(names[|names| - 1], SeedContent)]
  }

  /** The repository calls of one user on `m`: a lookup, then a save only for a write on a present name. */
  function StepCalls(m: Store, name: string, write: bool, value: int32): seq<RepoCall> {
    if write && name in m then [FindById(name), Save(name, FromInt(value as int))] else [FindById(name)]
  }

  /** One user makes exactly one lookup and no delete. */
  lemma StepCallsShape(m: Store, name: string, write: bool, value: int32)
    ensures Lookups(StepCalls(m, name, write, value)) == 1
    ensures forall k :: 0 <= k < |StepCalls(m, name, write, value)| ==> !StepCalls(m, name, write, value)[k].DeleteById?
  {
    var lookup := [FindById(name)];
    assert lookup[..0] == [];
    assert Lookups(lookup) == 1;
    if write && name in m {
      var step := StepCalls(m, name, write, value);
      assert step[..|step| - 1] == lookup;
      assert !step[|step| - 1].FindById?;
      assert Lookups(step) == Lookups(lookup);
    }
  }

  /** The repository calls of the first `n` users running one after another, starting on `m`. */
  function UserCalls(m: Store, names: seq<string>, draws: seq<UserDraw>, n: nat): seq<RepoCall>
    requires IndexesIn(draws, |names|) && n <= |draws|
  {
    if n == 0 then []
    else
      var d := draws[n - 1];
      UserCalls(m, names, draws, n - 1) + StepCalls(UsersRun(m, names, draws, n - 1), names[d.index], d.write, d.value)
  }

  /** Each user makes exactly one lookup: the log of `n` users holds exactly `n` lookups. */
  lemma {:induction false} UserCallsLookups(m: Store, names: seq<string>, draws: seq<UserDraw>, n: nat)
    requires IndexesIn(draws, |names|) && n <= |draws|
    ensures Lookups(UserCalls(m, names, draws, n)) == n
  {
    if n > 0 {
      var d := draws[n - 1];
      var before := UsersRun(m, names, draws, n - 1);
      UserCallsLookups(m, names, draws, n - 1);
      LookupsAppend(UserCalls(m, names, draws, n - 1), StepCalls(before, names[d.index], d.write, d.value));
      StepCallsShape(before, names[d.index], d.write, d.value);
    }
  }

  /** Users never delete: no call in the log of the user pass is a `deleteById`. */
  lemma {:induction false} UserCallsNeverDelete(m: Store, names: seq<string>, draws: seq<UserDraw>, n: nat)
    requires IndexesIn(draws, |names|) && n <= |draws|
    ensures forall k :: 0 <= k < |UserCalls(m, names, draws, n)| ==> !UserCalls(m, names, draws, n)[k].DeleteById?
  {
    if n > 0 {
      var d := draws[n - 1];
      var before := UsersRun(m, names, draws, n - 1);
      var step := StepCalls(before, names[d.index], d.write, d.value);
      var prev := UserCalls(m, names, draws, n - 1);
      UserCallsNeverDelete(m, names, draws, n - 1);
      StepCallsShape(before, names[d.index], d.write, d.value);
      var all := UserCalls(m, names, draws, n);
      assert all == prev + step;
      forall k | 0 <= k < |all|
        ensures !all[k].DeleteById?
      {
        if k < |prev| {
          assert all[k] == prev[k];
        } else {
          assert all[k] == step[k - |prev|];
        }
      }
    }
  }

  /** Seeding `n` files and then running any users leaves all `n` files present. */
  lemma SeededFilesSurvive(m: Store, n: int, draws: seq<UserDraw>)
    requires IndexesIn(draws, n)
    ensures forall i :: 0 <= i < n ==> FileName(i) in UsersRun(Seeded(m, FileNames(n)), FileNames(n), draws, |draws|)
  {
    var names := FileNames(n);
    SeededHoldsSeed(m, names);
    UsersRunKeepsKeys(Seeded(m, names), names, draws, |draws|);
    forall i | 0 <= i < n
      ensures FileName(i) in names
    {
      assert names[i] == FileName(i);
    }
  }

  /** One unit of work whose completion the driver joins on. */
  datatype Job = SeedJob(name: string) | UserJob(name: string)

  /** The units of the seeding pass: one per name, in order. */
  function SeedJobs(names: seq<string>): seq<Job> {
    seq(|names|, i requires 0 <= i < |names| => SeedJob(names[i]))
  }

  /** The units of the first `n` users: one per draw, on the name its index picks, in order. */
  function UserJobs(names: seq<string>, draws: seq<UserDraw>, n: nat): seq<Job>
    requires IndexesIn(draws, |names|) && n <= |draws|
  {
    if n == 0 then [] else UserJobs(names, draws, n - 1) + [UserJob(names[draws[n - 1].index])]
  }

  class UserSimulation {
    const fileService: FileService
    const numberOfFiles: int
    var fileNames: seq<string>

    /** The driver over an injected service, with the configured number of files. */
    constructor (fileService: FileService, numberOfFiles: int)
      ensures this.fileService == fileService && this.numberOfFiles == numberOfFiles && fileNames == []
    {
      this.fileService := fileService;
      this.numberOfFiles := numberOfFiles;
      fileNames := [];
    }

    /** `init`: the names `file_0` ... `file_{numberOfFiles-1}`, in order. */
    method Init()
      modifies this`fileNames
      ensures fileNames == FileNames(numberOfFiles)
    {
      fileNames := [];
      var i := 0;
      while i < numberOfFiles
        invariant 0 <= i && (i <= numberOfFiles || i == 0)
        invariant fileNames == FileNames(i)
      {
        fileNames := fileNames + ["file_" + FromNat(i)];
        i := i + 1;
      }
    }

    /**
     * `simulateUserWritingAndReading(fileName)`: exactly one service operation,
     * `setContentToFile` with the decimal text of `value` when `write`, else `getFile`.
     */
    method SimulateUserWritingAndReading(fileName: string, write: bool, value: int32)
      requires fileService.readHolds == 0
      modifies fileService
      ensures fileService.readHolds == 0 && fileService.writeHolds == old(fileService.writeHolds)
      ensures fileService.store == UserStep(old(fileService.store), fileName, write, value)
      ensures fileService.calls == old(fileService.calls) + StepCalls(old(fileService.store), fileName, write, value)
    {
      if write {
        var contentToAdd := FromInt(value as int);
        var _ := fileService.SetContentToFile(fileName, contentToAdd, Elapsed);
      } else {
        var _, _ := fileService.GetFile(fileName, Elapsed);
      }
    }

    /** The seeding pass: one save of `SeedContent` per name, in order. */
    method SeedFiles() returns (futures: seq<Job>)
      requires fileService.readHolds == 0
      modifies fileService
      ensures fileService.readHolds == 0 && fileService.writeHolds == old(fileService.writeHolds)
      ensures fileService.store == Seeded(old(fileService.store), fileNames)
      ensures fileService.calls == old(fileService.calls) + SeedCalls(fileNames)
      ensures futures == SeedJobs(fileNames)
    {
      futures := [];
      var i := 0;
      while i < |fileNames|
        invariant 0 <= i <= |fileNames|
        invariant fileService.readHolds == 0 && fileService.writeHolds == old(fileService.writeHolds)
        invariant fileService.store == Seeded(old(fileService.store), fileNames[..i])
        invariant fileService.calls == old(fileService.calls) + SeedCalls(fileNames[..i])
        invariant |futures| == i
        invariant forall j :: 0 <= j < i ==> futures[j] == SeedJob(fileNames[j])
      {
        SeedPrefixStep(old(fileService.store), fileNames, i);
        assert old(fileService.calls) + SeedCalls(fileNames[..i + 1])
            == fileService.calls + [Save(fileNames[i], SeedContent)];
        ghost var before := fileService.store;
        var file := new File(fileNames[i], SeedContent);
        var _ := fileService.SaveFile(file, Elapsed);
        assert fileService.store == AfterSave(before, fileNames[i], SeedContent);
        futures := futures + [SeedJob(fileNames[i])];
        i := i + 1;
      }
      assert fileNames[..i] == fileNames;
    }

    /** The user pass: one user per draw, on the name its index picks, in order. */
    method RunUsers(numberOfUsers: int, draws: seq<UserDraw>) returns (futures: seq<Job>)
      requires |draws| == if numberOfUsers < 0 then 0 else numberOfUsers
      requires IndexesIn(draws, |fileNames|)
      requires fileService.readHolds == 0
      modifies fileService
      ensures fileService.readHolds == 0 && fileService.writeHolds == old(fileService.writeHolds)
      ensures fileService.store == UsersRun(old(fileService.store), fileNames, draws, |draws|)
      ensures fileService.calls == old(fileService.calls) + UserCalls(old(fileService.store), fileNames, draws, |draws|)
      ensures futures == UserJobs(fileNames, draws, |draws|)
    {
      futures := [];
      ghost var start := fileService.store;
      ghost var startCalls := fileService.calls;
      var u := 0;
      while u < numberOfUsers
        invariant 0 <= u <= |draws|
        invariant fileService.readHolds == 0 && fileService.writeHolds == old(fileService.writeHolds)
        invariant fileService.store == UsersRun(start, fileNames, draws, u)
        invariant fileService.calls == startCalls + UserCalls(start, fileNames, draws, u)
        invariant futures == UserJobs(fileNames, draws, u)
      {
        var d := draws[u];
        var fileName := fileNames[d.index];
        ghost var step := StepCalls(fileService.store, fileName, d.write, d.value);
        assert startCalls + UserCalls(start, fileNames, draws, u + 1) == fileService.calls + step;
        SimulateUserWritingAndReading(fileName, d.write, d.value);
        futures := futures + [UserJob(fileName)];
        u := u + 1;
      }
    }

    /**
     * `simulateMultipleUsers(numberOfUsers)`: the seeding pass, then the users; returns
     * the joined units in submission order. Afterwards every generated file is present.
     * With users to run but no files, the first index draw throws (`completed` is false).
     */
    method SimulateMultipleUsers(numberOfUsers: int, draws: seq<UserDraw>) returns (completed: bool, futures: seq<Job>)
      requires fileNames == FileNames(numberOfFiles)
      requires |draws| == if numberOfUsers < 0 then 0 else numberOfUsers
      requires numberOfFiles > 0 ==> IndexesIn(draws, numberOfFiles)
      requires fileService.readHolds == 0
      modifies fileService
      ensures fileService.readHolds == 0 && fileService.writeHolds == old(fileService.writeHolds)
      ensures completed <==> numberOfUsers <= 0 || numberOfFiles > 0
      ensures completed ==> IndexesIn(draws, |fileNames|)
      ensures completed ==> fileService.store == UsersRun(Seeded(old(fileService.store), fileNames), fileNames, draws, |draws|)
      ensures completed ==> fileService.calls == old(fileService.calls) + SeedCalls(fileNames)
                                                 + UserCalls(Seeded(old(fileService.store), fileNames), fileNames, draws, |draws|)
      ensures fileService.store.Keys == old(fileService.store).Keys + set n | n in fileNames
      ensures forall i :: 0 <= i < numberOfFiles ==> FileName(i) in fileService.store
      ensures completed ==> futures == SeedJobs(fileNames) + UserJobs(fileNames, draws, |draws|)
      ensures !completed ==> fileService.store == old(fileService.store) && fileService.calls == old(fileService.calls) && futures == []
    {
      ghost var start := fileService.store;
      var seeds := SeedFiles();
      ghost var seeded := fileService.store;
      SeededHoldsSeed(start, fileNames);
      if numberOfUsers > 0 && numberOfFiles <= 0 {
        // nextInt(numberOfFiles) rejects a bound that is not positive: the first user's draw throws
        completed, futures := false, seeds;
        return;
      }
      completed := true;
      var users := RunUsers(numberOfUsers, draws);
      futures := seeds + users;
      UsersRunKeepsKeys(seeded, fileNames, draws, |draws|);
      SeededFilesSurvive(start, numberOfFiles, draws);
    }
  }
}
