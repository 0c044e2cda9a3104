# Distributor permissions over a city catalog

A model of the permission logic of a small Go program that decides, for each
of a list of film distributors, which cities of a catalog the distributor may
serve. Each city carries a code (for example `HUBLI-KARNATAKA-IN`), a province
code, a country code and three display names. Each distributor holds one
permission strategy; the only strategy is a pair of ordered lists of code
prefixes, `Include` and `Exclude`. A city code is denied as soon as some
exclude entry is a prefix of it; otherwise it is granted as soon as some
include entry is a prefix of it; otherwise it is denied.

The project has four modules:

- `Catalog` (`catalog.dfy`): the `City` record and the positional projection
  of a six-field CSV record into a city.
- `Permission` (`permission.dfy`): the `PermissionStrategy` datatype (one
  variant, `IncludeExclude`), the decision as a function `Permit`, and
  `CheckPermission`, the two early-return loops of the program, proved equal
  to `Permit`. Lemmas state exclusion precedence, default deny, the empty
  include list and independence from the order and repetition of entries.
- `Distribution` (`distribution.dfy`): distributors, the rows and blocks
  each distributor's evaluation produces, the evaluation loop
  (`EvaluateDistributor`), the report in distributor order (`Report`) and the
  printed output (`PrintPermissions`). The program runs one goroutine per
  distributor and prints each block when it arrives on a shared channel, so
  the printed order is whatever order the goroutines finish in. The model
  takes that completion order as a parameter (any permutation of the
  distributor indices) and proves that the printed blocks are a permutation of
  the per-distributor blocks, one per distributor. It does not claim that the
  blocks come out in distributor order, because the program does not ensure
  that.
- `Configuration` (`configuration.dfy`): the three distributors that the
  program's `main` configures, with lemmas on the decisions they give for
  particular codes.

Matching follows `strings.HasPrefix(cityCode, entry)` literally: an entry
matches when it is a prefix of the code (`entry <= code` on `seq<char>`). The
entries configured in `main` (`"KARNATAKA-IN"`, `"CHENNAI-TAMILNADU-IN"`,
`"TAMILNADU-IN"`, `"IN"`) read like the trailing part of most-specific-first
codes. Under prefix matching, though, the second distributor denies
`BANGALORE-KARNATAKA-IN`, because `"IN"` is not a prefix of it;
`Configuration.SecondDistributorDecisions` states that denial. Each block is
sent on a shared channel and printed as it arrives, so blocks come out in the
order the evaluations complete; the model claims no ordering of them.

## Model

| member | source | states |
|---|---|---|
| `Catalog.CityFromRecord` | app.go:114-121 | fields 0..5 of a record become, in order, the city's code, province code, country code, name, province name and country name; requires at least six fields |
| `Catalog.RecordRoundTrip` | app.go:114-121 | building a city from the six fields of a city gives that city back |
| `Catalog.TrailingFieldsIgnored` | app.go:94-121 | a record with extra fields (the reader accepts any field count) builds the same city as its first six fields |
| `Permission.MatchesAny` | app.go:73-82 | a first-match scan over an entry list finds a match exactly when some entry of the list is a prefix of the code |
| `Permission.Permit` | app.go:72-84 | a code is granted exactly when no exclude entry is a prefix of it and some include entry is |
| `Permission.CheckPermission` | app.go:72-84 | the two early-return loops return the same decision as `Permit`; they deny exactly when some exclude entry is a prefix or no include entry is |
| `Permission.ExclusionTakesPrecedence` | app.go:73-77 | an exclude entry that is a prefix of the code denies it whatever the include list holds |
| `Permission.IncludeGrants` | app.go:78-82 | with no matching exclude entry, a matching include entry grants the code |
| `Permission.EmptyIncludeDeniesAll` | app.go:78-83 | an empty include list denies every code |
| `Permission.DefaultDeny` | app.go:83 | a code matched by no entry of either list is denied |
| `Permission.OrderIrrelevant` | app.go:72-84 | two strategies whose lists hold the same entries, in any order and with any repetition, decide every code alike |
| `Distribution.Rows` | app.go:147-150 | one row per city in catalog order; row k carries city k's display names and the decision for city k's code |
| `Distribution.EvaluateDistributor` | app.go:143-151 | the loop over the cities yields the distributor's name and exactly one row per city, row k holding `Permit` of city k's code |
| `Distribution.Report` | app.go:141-153 | one block per distributor; block k is distributor k's name with its rows over the whole catalog |
| `Distribution.PrintPermissions` | app.go:137-163 | for any completion order, exactly one block per distributor is printed, the j-th being the evaluation of the distributor that completed j-th, and the printed blocks are a permutation of the report |
| `Distribution.EveryDistributorPrinted` | app.go:141-162 | every distributor's block is among the printed blocks, and when distributor names are pairwise distinct it is printed exactly once |
| `Configuration.FirstDistributorDecisions` | app.go:46-52 | the first distributor grants `US` and `IN` and denies `KARNATAKA-IN`, `CHENNAI-TAMILNADU-IN` and `MUMBAI-MAHARASHTRA-IN` |
| `Configuration.SecondDistributorDecisions` | app.go:53-59 | the second distributor grants `IN` and `INDIA` and denies `TAMILNADU-IN`, `CHENNAI-TAMILNADU-IN`, `BANGALORE-KARNATAKA-IN` and `US-NY` |
| `Configuration.PrefixDirection` | app.go:60-65 | with include `HUBLI-KARNATAKA-IN`, that code is granted while `KARNATAKA-IN` and `IN` are denied |
| `Configuration.RunConfigured` | app.go:45-68 | with the three configured distributors and any completion order, three blocks are printed, one per distributor name, each with one row per city; with completion order `[2, 0, 1]` the third distributor's block comes first |

## Left out

- Opening and reading the CSV file (`os.Open`, `csv.Reader`): I/O. The
  catalog is a given `seq<City>`.
- The read-error path of the loader, which sends on an unbuffered error
  channel that nobody receives from: that send blocks forever. This is a
  concurrency defect, not logic the model can state.
- Goroutines, `sync.WaitGroup`, `sync.Mutex` and channels in the loader and
  in `PrintPermissions`. As a consequence the catalog's order is not the
  file's order in the program, and the loader may return before all its
  workers have appended. The model takes the catalog as given. The channel's
  delivery order is the `completion` parameter of
  `Distribution.PrintPermissions`.
- Catalog.CityFromRecord: a record with fewer than six fields makes the
  worker goroutine panic with an index out of range, and an unrecovered panic
  in any goroutine ends the whole process. The model excludes such records
  with a precondition instead of modelling the crash.
- Strings: Go strings are byte sequences, while the model's strings are
  sequences of Unicode characters. `entry <= code` agrees with
  `strings.HasPrefix` when both are valid UTF-8; byte-level prefixes of codes
  that are not valid UTF-8, or that split a multi-byte character, are not
  modelled.
- Text formatting and printing (`fmt.Sprintf`, `strings.Builder`,
  `fmt.Println`), including the header line of each block. A block is modelled
  as the distributor's name and its rows.
- The error reporting in `main`.
