# go-study in Dafny

A model of the two parts of the go-study repository that compute something
definite:

- **hello.go's integer exercises** (module `Hello`, file `hello.dfy`):
  `add`, `swap`, `split`, `sum` and `while`. Go's 64-bit `int` is modelled
  exactly (module `GoInt`, file `go_int.dfy`). `+` and `*` wrap modulo 2^64
  (`GoInt.Wrap`), and `/` truncates toward zero (`GoInt.Quot`). `sum` and
  `while` are loops that update an accumulator, so they are methods with
  loop invariants. Each is proved against a specification: the arithmetic
  series `Series` for `sum`, and the smallest power of two for `while`.
- **The greeting service of package lg** (module `Lg`, file `lg.dfy`).
  - The two data stores are values of one datatype. Each answers
    `UserNameForID` with Go's comma-ok lookup.
  - `LoggerAdapter` is a class whose `entries` field records every message
    passed to the wrapped print function.
  - `SimpleLogic` holds a logger (shared by reference) and a store. Its
    `SayHello` and `SayGoodBy` each log once, then look the user up.
  - `Controller.HandleGreeting` logs a marker, calls `SayHello` and renders
    the outcome as a `(status, body)` response. A request is just its
    `user_id` value, which is the empty string when the parameter is
    missing.
  - `ServeOnce` wires everything as the entry point `main.go` does (one
    logger shared by controller and logic) and serves one request.

The texts are the code's own Japanese strings: the `さんこんにちは。` and
`さんさようなら。` suffixes and the error `不明なユーザー`. The farewell
operation keeps the code's name, `SayGoodBy`.

## Model

| member | source | states |
|---|---|---|
| GoInt.Wrap | hello.go:53 | the value Go stores for an exact result is the unique 64-bit value congruent to it modulo 2^64, and is the exact result when that fits |
| GoInt.WrapUnique | hello.go:53 | any 64-bit value congruent to x modulo 2^64 is Wrap(x) |
| GoInt.WrapAdd | hello.go:64 | wrapping the operands of `+` first does not change the wrapped sum, so Go's `+=` in a loop agrees with exact addition modulo 2^64 |
| GoInt.Quot | hello.go:53 | Go's `/` by a positive divisor: truncation toward zero, the remainder has the sign of the dividend and is smaller than the divisor |
| Hello.Add | hello.go:44-46 | `add` is x + y whenever that fits in 64 bits, and congruent to x + y modulo 2^64 always |
| Hello.AddThenSubtract | hello.go:44-46 | subtracting y from add(x, y), with Go's wrapping, gives x back, overflow or not |
| Hello.Swap | hello.go:48-50 | `swap` returns the same two strings, rearranged, and never the pair as given unless x == y; together these pin the result to (y, x) |
| Hello.SwapInvolutive | hello.go:48-50 | swapping the result again gives the original pair |
| Hello.SplitAsWritten | hello.go:52-56 | `split` exactly as written, with wrapping `*` and truncating `/`: x + y == sum for every 64-bit sum |
| Hello.SplitSubtractionFits | hello.go:54 | `sum - x` never overflows, however `sum * 4` wrapped |
| Hello.SplitAsWrittenOverflows | hello.go:53 | for sum = 3 * 2^61, the code as written gives a negative x and y > sum; the corrected split gives 0 <= x <= y |
| Hello.Split | hello.go:52-56 | corrected split: x + y == sum; x is 4/9 of sum truncated toward zero (9x <= 4 sum < 9x + 9 for sum >= 0, mirrored below 0); 0 <= x <= y for sum >= 0 and y <= x <= 0 otherwise |
| Hello.SplitAsWrittenAgrees | hello.go:52-56 | whenever `sum * 4` fits in 64 bits, the code as written and the corrected split agree |
| Hello.SeriesClosedForm | hello.go:61-67 | the series d + 2d + ... + nd equals d*n*(n+1)/2 for n >= 0 |
| Hello.SumStep | hello.go:63-65 | one pass of the loop body (`sum += i * d`, wrapping) keeps the accumulator equal to a plus the series up to i, reduced to 64 bits |
| Hello.Sum | hello.go:61-67 | `sum(a, d, n)` is a + (d + 2d + ... + nd) reduced to 64 bits, and a when n <= 0. The loop invariant says the accumulator is a plus the series up to i - 1 |
| Hello.SumClosedForm | hello.go:61-67 | for n >= 0, what `sum` returns is a + d*n*(n+1)/2 whenever that fits in 64 bits |
| Hello.PowerOfTwoGap | hello.go:70-76 | two distinct powers of two are at least a factor two apart |
| Hello.While | hello.go:70-76 | `while(limit)` returns a power of two p >= limit, p / 2 < limit when p > 1, 1 when limit <= 1, and no power of two >= limit is smaller than p; it terminates (measure limit - p) for limit <= 2^62 |
| Lg.DataStore.UserNameForID | pkg/lg/lg.go:50-59 | for both store types: (userData[id], true) when id is a key, ("", false) otherwise |
| Lg.NewSimpleDataStore | pkg/lg/lg.go:67-75 | a SimpleDataStore whose keys are exactly "1", "2", "3", mapped to "Chris", "Marry", "John" |
| Lg.SeededLookups | pkg/lg/lg.go:67-75 | the seeded store finds the three seeded names and reports every other id, the empty one included, as absent with an empty name |
| Lg.Salute | pkg/lg/lg.go:110-127 | the logic's answer: success exactly when the store has the id, the message is the name followed by the operation's suffix, and the only error is 不明なユーザー |
| Lg.SaluteDeterminesName | pkg/lg/lg.go:116 | two ids answered with the same successful message have the same name |
| Lg.CallEntry | pkg/lg/lg.go:111 | the log entry is the operation's name, then "(", then the id (which can be read back from the entry), then ")" |
| Lg.LoggerAdapter.constructor | main.go:9 | a fresh logger has recorded nothing |
| Lg.LoggerAdapter.Log | pkg/lg/lg.go:81-83 | exactly the message is passed on, once, after everything logged before |
| Lg.SimpleLogic.constructor | pkg/lg/lg.go:102-107 | the logic keeps the given logger and store |
| Lg.SimpleLogic.SayHello | pkg/lg/lg.go:110-117 | appends exactly one entry, "SayHello(" + id + ")", whether or not the user is found; returns the name + さんこんにちは。 or the unknown-user error; the store is a constant and never changes |
| Lg.SimpleLogic.SayGoodBy | pkg/lg/lg.go:120-127 | appends exactly one entry, "SayGoodBy(" + id + ")"; returns the name + さんさようなら。 or the unknown-user error |
| Lg.Render | pkg/lg/lg.go:152-157 | an error becomes status 400 with the error text as body; a message becomes the body under the default status 200 |
| Lg.Greet | pkg/lg/lg.go:148-158 | the response is 200 with name + さんこんにちは。 exactly when the store has the id, else 400 with 不明なユーザー |
| Lg.Controller.constructor | pkg/lg/lg.go:141-146 | the controller keeps the given logger and logic |
| Lg.Controller.HandleGreeting | pkg/lg/lg.go:148-158 | responds with Greet for the logic's store; logs "SayHello内: " and then the SayHello entry, in that order, into one shared logger, or one entry into each of two distinct loggers |
| Lg.ServeOnce | main.go:8-15 | with the program's wiring, one request logs exactly ["SayHello内: ", "SayHello(" + id + ")"]; id "1" gets 200 "Chrisさんこんにちは。", an id outside "1", "2", "3" (missing parameter included) gets 400 不明なユーザー |

## Findings

| source | as written | input that shows it | evidently intended | confidence | as-written member | corrected member |
|---|---|---|---|---|---|---|
| hello.go:53 | `x = sum * 4 / 9` multiplies first, so `sum * 4` wraps for sum > MaxInt64 / 4 | sum = 6917529027641081856 (3 * 2^61): `sum * 4` wraps to -2^63, giving x = -1024819115206086200 and y = 7942348142847168056 > sum | x is four ninths of sum: 3074457345618258602, with 0 <= x <= y for sum >= 0 | medium, not executed | Hello.SplitAsWrittenOverflows | Hello.Split |

## Left out

- hello.go `pow`: floating-point `math.Pow`.
- hello.go `printT`: complex square root, printing only.
- hello.go `greet`: it depends on the wall clock.
- hello.go `delay`, `point`, `printK`, `printL`, `main`: they only print and return nothing.
- hello.go package-level variables `c`, `java`, `python`, `i`, `j`: no operation reads them.
- pkg/lg/lg.go lines 12-30: an earlier version of the store and logger, commented out in the source.
- `LogOutput` (pkg/lg/lg.go:91-93) prints with `fmt.Println`. The model records the message in `LoggerAdapter.entries` instead. Console output is not modelled.
- The interfaces `DataStore`, `Logger` and `Logic` are left out. The model has one concrete implementation of each: the `DataStore` datatype, `LoggerAdapter` and `SimpleLogic`, and the controller holds a `SimpleLogic`.
- Go errors: the model keeps an error's text and not its identity. `errors.New` makes a new error value on each call.
- HTTP plumbing is left out: the route registration, `ListenAndServe`, `r.URL.Query().Get` and the `ResponseWriter`. The handler takes the `user_id` value and returns its status and body.
- Response headers and content type are not modelled.
- Hello.Sum: requires n < MaxInt64. At n == MaxInt64 the Go loop counter wraps before it can exceed n, so the loop never ends.
- Hello.While: requires limit <= 2^62. Above that the doubling wraps past 2^62 to a negative value and then to 0, so the loop never ends.
- GoInt.Quot: models Go's `/` only for a positive divisor. The source divides only by the constant 9.
