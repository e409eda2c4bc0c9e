# Tokyo event listing handler: data-shaping model

This project models the data-shaping part of the `echo` Lambda handler. The
handler fetches Tokyo's open-data event CSV and turns its rows into event
records. It then keeps all of them, or the first 10 or 20, according to the
`searchID` query parameter, and renders them as HTML. The model starts from
rows that are already parsed (`seq<seq<string>>`) and ends with the record list
handed to the template. It covers:

- the selector: `searchID` from the query string, or `"10"` when it is absent;
- the row-to-record closure: a loop over every row. It joins each row with
  commas for the debug string. It turns every row but the header into a
  `Record` taken from columns 4, 12, 19, 21, 7 and 9;
- the debug print of the last record, which fails when there are no records;
- the `switch` on the selector.

The Go runtime panics the handler can hit are modelled as an `Err` result
carrying the panic (`IndexOutOfRange(index, length)` or
`SliceOutOfRange(high, length)`), since each aborts the whole request.

Files:

- `strings.dfy` (module `Strings`): Go's `strings.Join`, with lemmas on its
  ends, on concatenation and on the join of joins.
- `echo.dfy` (module `Echo`): `Record`, the panics, `BuildRecord` (one row),
  `Records` (the specification of the closure's records, a left fold over the
  rows), `ExtractRecords` (the closure's loop, proved equal to `Records` and
  `DebugString`), `Select` (the switch), `Serve` and `Respond` (the handler as a
  function), `Handler` (the handler as the source writes it, step by step)
  and the lemmas about them.

Two behaviours of the code differ from what a reader would expect of the
page, and the model follows the code:

- Header-only input would be expected to show an empty page. The code panics
  at echo/main.go:103, where `recordObjects[len(recordObjects)-1]` is printed
  before the switch, with index -1. `HandlerFailsWithoutRecords` states this.
- An unrecognised selector would be expected to show the first ten records or
  fewer. The code slices `[:10]` without a length guard (echo/main.go:122).
  The model treats fewer than ten records there as a failure
  (`SliceOutOfRange(10, n)`).

## Model

| member | source | states |
|---|---|---|
| `Strings.Join` | echo/main.go:85 | Go's `strings.Join`: a definition with no contract of its own; its properties are stated by `Strings.JoinEnds`, `Strings.JoinConcat` and `Strings.JoinOfJoins` |
| `Echo.SelectorOf` | echo/main.go:64-67 | the `searchID` lookup with its default: a definition with no contract of its own; `Echo.SelectorDefaulting` states what it means for the handler |
| `Echo.DebugString` | echo/main.go:97 | the debug string, the comma-join of the rows' comma-joins: a definition with no contract of its own; `Echo.DebugStringJoinsAllFields` and `Echo.DebugStringStartsWithHeader` state its properties, and `Echo.ExtractRecords` proves the loop builds it |
| `Echo.Serve` | echo/main.go:81-123 | the handler once the selector is fixed (extraction, the line-103 access, the switch): a definition with no contract of its own; the `Echo.Handler*` lemmas state its properties through `Echo.Respond` |
| `Echo.Respond` | echo/main.go:62-123 | the whole handler as a function: a definition with no contract of its own; `Echo.Handler` is proved equal to it and `Echo.HandlerSucceedsIff`, `Echo.HandlerFailsWithoutRecords`, `Echo.HandlerFailsOnShortRow`, `Echo.HandlerResult` and `Echo.SelectorDefaulting` state its properties |
| `Echo.FirstMissing` | echo/main.go:87-94 | the position, in the list of columns the record literal reads, of the first column that a row of the given length lacks: every earlier column exists, and that one does not |
| `Echo.BuildRecord` | echo/main.go:87-94 | a row becomes a record exactly when it has at least 22 columns; Name, Desc, Org, Address, Start and End are columns 4, 12, 19, 21, 7 and 9; a shorter row panics at column 4, 12, 19 or 21, whichever is the first one missing |
| `Echo.Records` | echo/main.go:84-96 | extraction succeeds exactly when every row after the header has at least 22 columns, whatever the header's length; n rows give n-1 records and 0 rows give none; record k is the one built from row k+1, so row 0 is never used and row order is kept |
| `Echo.RecordsKeepFailure` | echo/main.go:84-96 | once a prefix of the rows has panicked, the whole extraction panics the same way, whatever the rows after it |
| `Echo.RecordsFailAtFirstShortRow` | echo/main.go:86-93 | the panic of the whole extraction is the panic of the first short data row |
| `Echo.ExtractRecords` | echo/main.go:81-98 | the loop returns the records of `Records` and the debug string, or the same panic when `Records` fails |
| `Echo.DebugStringStartsWithHeader` | echo/main.go:85-97 | the debug string begins with the header row joined by commas |
| `Echo.DebugStringJoinsAllFields` | echo/main.go:85-97 | when no row is empty, the debug string is every field of every row, header included, separated by single commas |
| `Strings.JoinConcat` | echo/main.go:97 | joining two non-empty lists of parts is joining each list and gluing the two results with one separator |
| `Strings.JoinEnds` | echo/main.go:97 | a join begins with its first part and ends with its last |
| `Strings.JoinOfJoins` | echo/main.go:85-97 | joining the rows' own joins gives the join of all fields when no row is empty |
| `Echo.Select` | echo/main.go:105-123 | the result is always a prefix of the records, so order is kept; "0" keeps all of them, "10" and "20" keep min(10, n) and min(20, n); any other selector gives the first 10 when there are at least 10 and panics with the slice bound otherwise |
| `Echo.SelectIdempotent` | echo/main.go:105-123 | selecting again with the same selector from a selection returns it unchanged |
| `Echo.SelectNested` | echo/main.go:107-120 | the "10" selection is a prefix of the "20" selection, which is a prefix of the "0" selection |
| `Echo.Handler` | echo/main.go:62-123 | the handler, run step by step, returns what `Respond` specifies: extraction, then the last-record access, then the switch |
| `Echo.HandlerSucceedsIff` | echo/main.go:62-123 | the handler succeeds exactly when every data row has at least 22 columns, there is at least one data row, and the selector is "0", "10" or "20" or there are at least ten records |
| `Echo.HandlerFailsWithoutRecords` | echo/main.go:103 | empty or header-only input fails with index -1 out of range, whatever the selector |
| `Echo.HandlerFailsOnShortRow` | echo/main.go:86-93 | the first data row with fewer than 22 columns fails the whole request with that row's panic, whatever the selector and whatever follows it |
| `Echo.HandlerResult` | echo/main.go:105-123 | on success, the k-th record shown is built from row k+1; "0" shows all n data rows, "20" shows min(20, n), and "10" or any other selector shows min(10, n) |
| `Echo.SelectorDefaulting` | echo/main.go:64-67 | without `searchID` the request is served as selector "10"; with it, its value is used as given, including the empty string |

## Left out

- The HTTP GET of the fixed URL and the closing of the body (echo/main.go:69-73): network I/O. Its failure is one more error the model does not produce.
- The Shift-JIS decoding (echo/main.go:75): a foreign library. The model's rows are the decoded text.
- CSV parsing with `encoding/csv` `ReadAll` (echo/main.go:75-79): a library. Its output is the model's input. Its own errors, such as inconsistent field counts, are not modelled.
- The HTML template (echo/main.go:29-60, 125-133): library parsing, escaping and rendering. The model ends with the record list handed to `Execute`.
- The printing of the debug string, the record count and the last record (echo/main.go:101-103): output only. The debug string is computed and its contents proved. The panic of line 103 is kept.
- The response headers, status and `lambda.Start` (echo/main.go:135-146): fixed gateway plumbing.
- Select: Go checks a slice's upper bound against the slice's capacity, not its length. For an unrecognised selector with fewer than ten records, `recordObjects[:10]` in Go can either panic or return zero-valued padding records. Which one depends on the spare capacity that `append` left in the slice. The model does not track capacity and always reports `SliceOutOfRange(10, n)`.
- Running the same request twice gives the same page: the model's functions are deterministic, so this holds by construction and needs no lemma.
