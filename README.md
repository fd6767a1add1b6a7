# File server: a verified sequential model

The file server is a small demonstration of the readers–writers problem. A
`FileService` guards a repository of named files (name → content) with one
readers–writer lock: `getFile` takes the read lock, and `deleteFile`,
`setContentToFile` and `saveFile` take the write lock. Every operation sleeps for a
simulated database delay while it holds the lock. A `UserSimulation` driver generates
the names `file_0` … `file_{n-1}`, saves each one with the content `"Random: "`, and
then starts simulated users. Each user picks a random file and either writes a random
number into it or reads it.

This project models the sequential meaning of those operations in Dafny:

- `Files` (File.dfy) is the `File` record. Its name is a `const`, and its content is
  replaced wholesale.
- `Service` (FileService.dfy) is the guarded store, a class with these fields:
  - `store: map<string, string>` stands for the JPA repository.
  - The ghost counters `readHolds` and `writeHolds` stand for the lock.
  - The ghost log `calls` records the repository calls made (`findById`, `save`,
    `deleteById`), as the Mockito tests observe them.

  The repository calls are modelled as the methods `FindByIdLocked`, `SaveLocked` and
  `DeleteByIdLocked`, and each one requires the right lock to be held. What the verifier
  checks is that each of `FileService`'s own four operations makes its repository calls
  while it holds the right lock. Dafny has no private members and `store` is a public
  field, so this does not stop other code from assigning the store directly. Each
  operation's effect on the store is given by a specification function (`AfterDelete`,
  `AfterSetContent`, `AfterSave`).
- `Simulation` (UserSimulation.dfy) is the driver, with three parts:
  - name generation, with pairwise distinctness proved;
  - the seeding pass;
  - the user pass, with the proof that users never change the store's key set.

  The random draws (which file, write or read, which number) are parameters.
- `Decimal` (Decimal.dfy) gives the decimal text that `"file_" + i` and
  `Integer.toString` produce. It is proved against a parser that reads the text back.
- `Wrappers` (Wrappers.dfy) is the `Option` type.

`simulateDatabaseDelay` becomes a `Delay` parameter, `Elapsed` or `Interrupted`. An
interrupted delay makes the operation abort (`completed == false`) before it calls the
repository. The lock is still released, as the source's `finally` block does.

The driver runs every seed save first, then the users one after another. The seed
saves go through the `FileService` proxy, so they are asynchronous. The code's comment
at UserSimulation.java:97 says the files are saved first with their initial content,
but nothing waits for those saves before the users start. The users are different:
UserSimulation.java:104 calls `simulateUserWritingAndReading` on `this`, so the Spring
proxy does not intercept the call and `@Async` does not apply. Each user therefore runs
inline, in order, and waits for its own operation with `future.get()` (lines 76 and 79).
The model keeps that user order. It puts the seed saves before the users, which is one
possible schedule of the asynchronous saves.

With users to run and no files (`numberOfFiles <= 0`), the first `nextInt(numberOfFiles)`
at UserSimulation.java:104 throws `IllegalArgumentException`. The model reports this as
`completed == false`, with nothing queued and the store unchanged. With no files, the
seeding pass has nothing to save.

## Model

| member | source | states |
|---|---|---|
| `Files.File.Named` | src/main/java/com/petya8bachey/file_server/File.java:13-16 | `File(name)` keeps the name and starts with empty content |
| `Files.File.constructor` | src/main/java/com/petya8bachey/file_server/File.java:18-21 | `File(name, content)` stores both values exactly as given |
| `Files.File.GetName` | src/main/java/com/petya8bachey/file_server/File.java:26-28 | returns the name fixed at construction (a `const`, so it is the same for the object's whole lifetime) |
| `Files.File.GetContent` | src/main/java/com/petya8bachey/file_server/File.java:30-32 | returns the current content |
| `Files.File.SetContent` | src/main/java/com/petya8bachey/file_server/File.java:34-36 | afterwards the content is exactly `c`; only the content field may change, so the name stays the same |
| `Service.AfterDelete` | src/main/java/com/petya8bachey/file_server/FileService.java:100-105 | deleting removes exactly the given key; every other entry keeps its content; on a missing name the store is unchanged |
| `Service.AfterSetContent` | src/main/java/com/petya8bachey/file_server/FileService.java:126-133 | the key set never changes (no create on a miss); a present entry gets exactly the new content; every other entry is unchanged |
| `Service.AfterSave` | src/main/java/com/petya8bachey/file_server/FileService.java:153 | upsert: afterwards the name maps to the content whether or not it existed; the only key that may be added is that name; other entries are unchanged |
| `Service.SaveThenGet` | src/main/java/com/petya8bachey/file_server/FileService.java:148-159 | read-your-write: a lookup right after a save finds the saved content |
| `Service.SaveIdempotent` | src/main/java/com/petya8bachey/file_server/FileService.java:153 | saving the same record twice has the same effect as saving it once |
| `Service.DeleteIdempotent` | src/main/java/com/petya8bachey/file_server/FileService.java:100-105 | a second delete of the same name is a no-op |
| `Service.FileService.FindByIdLocked` | src/main/java/com/petya8bachey/file_server/FileRepository.java:15 | `findById` is a pure lookup; it may only be called with the read or the write lock held |
| `Service.FileService.SaveLocked` | src/main/java/com/petya8bachey/file_server/FileRepository.java:15 | `save` upserts the record; it may only be called with the write lock held |
| `Service.FileService.DeleteByIdLocked` | src/main/java/com/petya8bachey/file_server/FileRepository.java:15 | `deleteById` removes the key; it may only be called with the write lock held |
| `Service.FileService.GetFile` | src/main/java/com/petya8bachey/file_server/FileService.java:73-85 | returns a record with the stored name and content when the name is present and null on a miss; the store never changes; exactly one `findById` call; the lock counters are back at their entry values on both exits |
| `Service.FileService.DeleteFile` | src/main/java/com/petya8bachey/file_server/FileService.java:95-110 | the store becomes `AfterDelete`; `deleteById` is called only when the lookup found the name; the lock counters are back at their entry values on both exits; an interrupted delay leaves the store unchanged and makes no call |
| `Service.FileService.SetContentToFile` | src/main/java/com/petya8bachey/file_server/FileService.java:121-138 | the store becomes `AfterSetContent`; `save(name, content)` follows the lookup only on a hit, so nothing is saved on a miss; the lock counters are back at their entry values on both exits |
| `Service.FileService.SaveFile` | src/main/java/com/petya8bachey/file_server/FileService.java:148-159 | the store becomes `AfterSave` of the record's name and content, with exactly one `save` call; the lock counters are back at their entry values on both exits |
| `Decimal.FromNat` | src/main/java/com/petya8bachey/file_server/UserSimulation.java:122 | the decimal text of a natural number is non-empty and made of digits only |
| `Decimal.FromNatRoundTrip` | src/main/java/com/petya8bachey/file_server/UserSimulation.java:122 | reading back the decimal text of `n` gives `n` |
| `Decimal.FromNatNoLeadingZero` | src/main/java/com/petya8bachey/file_server/UserSimulation.java:122 | the decimal text starts with `'0'` only for the number 0, so it has no leading zero |
| `Decimal.FromNatInjective` | src/main/java/com/petya8bachey/file_server/UserSimulation.java:122 | two numbers have the same decimal text exactly when they are equal |
| `Decimal.FromIntRoundTrip` | src/main/java/com/petya8bachey/file_server/UserSimulation.java:74 | `Integer.toString(x)` is a signed decimal text that reads back as `x`, for negative `x` too |
| `Simulation.FileNameInjective` | src/main/java/com/petya8bachey/file_server/UserSimulation.java:122 | `"file_" + i` equals `"file_" + j` exactly when `i == j` |
| `Simulation.FileNames` | src/main/java/com/petya8bachey/file_server/UserSimulation.java:120-123 | there are exactly `n` names (none when `n` is not positive), and the i-th is `"file_" + i` |
| `Simulation.FileNamesDistinct` | src/main/java/com/petya8bachey/file_server/UserSimulation.java:120-123 | the generated names are pairwise distinct |
| `Simulation.SeededHoldsSeed` | src/main/java/com/petya8bachey/file_server/UserSimulation.java:98-100 | after one seed save per name, the key set is the old keys plus the names; every name maps to `"Random: "`; other entries are unchanged |
| `Simulation.UserStep` | src/main/java/com/petya8bachey/file_server/UserSimulation.java:73-80 | one user keeps the key set; a write on a present name leaves it with the decimal text of the drawn number; everything else is unchanged |
| `Simulation.UsersRunKeepsKeys` | src/main/java/com/petya8bachey/file_server/UserSimulation.java:103-105 | any sequence of user operations leaves the store's key set unchanged |
| `Simulation.SeededFilesSurvive` | src/main/java/com/petya8bachey/file_server/UserSimulation.java:98-105 | after seeding `n` files and running any users with valid indexes, all `n` generated files are present |
| `Simulation.UserSimulation.Init` | src/main/java/com/petya8bachey/file_server/UserSimulation.java:119-125 | the counting loop leaves `fileNames` equal to `FileNames(numberOfFiles)`: `numberOfFiles` distinct names `file_i` in order |
| `Simulation.UserSimulation.SimulateUserWritingAndReading` | src/main/java/com/petya8bachey/file_server/UserSimulation.java:72-82 | exactly one operation: `setContentToFile(name, Integer.toString(value))` when the draw writes, else `getFile(name)`; the log shows exactly one lookup, plus one save only for a write on a present name |
| `Simulation.UserSimulation.SeedFiles` | src/main/java/com/petya8bachey/file_server/UserSimulation.java:98-100 | the seeding loop makes one `saveFile` of `"Random: "` per name, in order: the store becomes `Seeded`, the repository log grows by exactly `SeedCalls` (one `save` per name, nothing else), and one unit is queued per name |
| `Simulation.UserSimulation.RunUsers` | src/main/java/com/petya8bachey/file_server/UserSimulation.java:103-105 | the user loop runs one user per draw, on the name its index picks, in order: the store becomes `UsersRun`, the repository log grows by exactly `UserCalls` (each user's lookup, plus its save for a write on a present name), and one unit is queued per user |
| `Simulation.UserSimulation.SimulateMultipleUsers` | src/main/java/com/petya8bachey/file_server/UserSimulation.java:93-112 | completes exactly when there are no users or at least one file (otherwise `nextInt` throws on the first draw, and the store, log and queue are untouched). On completion the store is the users' run over the seeded store; the log is the seed saves followed by the users' calls; the joined list has one unit per name and then one per user. In every case the key set is the old keys plus the generated names, so every seeded file is still present |
| `Simulation.SeedCalls` | src/main/java/com/petya8bachey/file_server/UserSimulation.java:98-100 | the seeding pass makes one repository call per name, and the i-th is `save(names[i], "Random: ")` |
| `Simulation.StepCallsShape` | src/main/java/com/petya8bachey/file_server/UserSimulation.java:73-80 | one user makes exactly one `findById` call and never calls `deleteById` |
| `Simulation.UserCallsLookups` | src/main/java/com/petya8bachey/file_server/UserSimulation.java:103-105 | `n` users make exactly `n` `findById` calls, one each, whether they read or write |
| `Simulation.UserCallsNeverDelete` | src/main/java/com/petya8bachey/file_server/UserSimulation.java:103-105 | no user ever calls `deleteById` |

## Left out

- Concurrency is not modelled: mutual exclusion between writers, concurrent readers, `@Async` scheduling, `CompletableFuture` and the `allOf(...).join()` barrier. The lock appears only as balanced ghost hold counters. The write operations require that the caller holds no read hold, because `ReentrantReadWriteLock` cannot upgrade a read lock to a write lock.
- The timing and randomness of `simulateDatabaseDelay` are left out. Only its two outcomes are kept, as the `Delay` parameter.
- The driver always runs with uninterrupted delays. How an interrupted operation's exception travels through the Spring proxies and the join is not modelled.
- `java.util.Random` is replaced by parameters. When there is at least one file, the file indexes drawn by `nextInt(numberOfFiles)` are required to lie in `[0, numberOfFiles)`, as `nextInt` guarantees. The written numbers are `int32` values.
- Seeding order: the model runs all seed saves before the users. The code does not wait for the asynchronous seed saves before the users start (see above).
- Service.FileService.GetFile: a runtime exception thrown by the repository's `findById` is not modelled. The source's `finally` block (FileService.java:81-82) still releases the read lock on that path.
- Service.FileService.DeleteFile: a runtime exception thrown by `findById` or `deleteById` is not modelled. The source's `finally` block (FileService.java:106-107) still releases the write lock on that path.
- Service.FileService.SetContentToFile: a runtime exception thrown by `findById` or `save` is not modelled. The source's `finally` block (FileService.java:134-135) still releases the write lock on that path.
- Service.FileService.SaveFile: a runtime exception thrown by `save` is not modelled. The source's `finally` block (FileService.java:155-156) still releases the write lock on that path.
- Simulation.UserSimulation.SimulateMultipleUsers: the `IllegalArgumentException` from `nextInt` is modelled only as `completed == false`. The exception itself and its propagation through `@SneakyThrows` are not modelled.
- The repository's JPA entity identity is not modelled. A lookup returns a fresh `File` built from the stored name and content. Aliasing between entity objects is therefore not captured.
- `File()`, the no-argument JPA constructor, is not modelled. It leaves both fields null and exists only for the persistence framework.
- `synchronized` on the `File` accessors is a concurrency concern only.
- Spring wiring (`@Autowired`, the `@Value` default of 10 files), logging and the application bootstrap (FileServerApplication.java) are left out. The constructors of `FileService` and `UserSimulation` take the injected collaborators as parameters.
