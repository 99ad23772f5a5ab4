# API monitor, modelled in Dafny

This project models `api_monitor.go`: an interactive tool that reads a list
of endpoint URLs from `sandbox.txt` or `production.txt` and makes one HTTP
GET per URL. For each URL it prints whether the JSON body says
`IsHealthy`. The model keeps the program's deterministic logic and turns
every I/O call into an input:

- **URL source reader** (`url_source.dfy`, with `text.dfy`). The environment
  string selects the file name. The file is then read through a `Reader`
  class that models `bufio.Reader.ReadString('\n')`. Each piece is trimmed
  with a model of `strings.TrimSpace` and appended to the list. The loop
  (`ReadUrls`) is proved equal to `Urls`, a function of the file contents.
  The contract of `Urls` and the lemmas about it give:
  - the entry count (newlines + 1);
  - the content and order of the entries;
  - that no entry has leading or trailing white space;
  - the trailing `""` for a file that ends in a newline, and `[""]` for an
    empty file.
- **Health prober** (`health.dfy`). `checkHealthiness` and `convertToObject`
  are functions over the outcome of the request, the outcome of the body
  read, and what `json.Unmarshal` left behind: for a body that is not valid
  JSON, nothing (`IsHealthy` stays false). The JSON decoder's error is
  dropped, as in the source.
- **Monitoring pass** (`monitor.dfy`). `RunPass` is `monitor`, and
  `ProbeAll` its per-URL loop; the two are proved equal to the functions
  `Pass` and `Lines`:
  - a URL file that cannot be opened ends the program with status -1 before
    any probe;
  - otherwise there is exactly one output line per URL, in list order,
    between the two banners.
- **Interactive shell** (`shell.dfy`). `Run` is the menu loop of `main`,
  proved equal to the function `Session` over the sequence of scanned
  tokens. On that finite input, with every probe answered, the session ends
  with status 0 or -1. `Dispatch` is the `switch`. `ReadOption` is `readOption`, including
  its ignored scan error.

Standard input is a sequence of scan results, and past its end every scan
fails. The working directory is a map from file names to contents; a name
missing from the map fails to open. The network is a function from (probe
number within the pass, URL) to the outcome of the GET. Both the directory
and the network can differ from pass to pass (`World`). `os.Exit(code)` is
a returned status rather than the end of the process. Printed output is a
sequence of `Line` values.

White space is Go's `unicode.IsSpace`: the Latin-1 set plus the Unicode
White_Space characters above U+00FF. It is not just ASCII.

Two behaviours follow the code, though they may not be what a user of the
tool expects:

- Input that `fmt.Scan` cannot read as an integer is not an invalid option.
  The scan error is ignored and `option` keeps its zero value, so the program
  quits with status 0. Only an integer other than 0, 1 and 2 gives status -1.
- The trailing `""` entry comes from a file that ends with a newline, not
  from one that lacks it. An empty file gives `[""]`. Blank lines are never
  dropped, so each one is probed as the URL `""`.

## Model

| member | source | states |
|---|---|---|
| UrlSource.FileName | api_monitor.go:116-122 | the file is `production.txt` exactly when the environment is `"production"`; every other string gives `sandbox.txt` |
| UrlSource.ExtractUrlsFromTxt | api_monitor.go:110-143 | a file missing from the directory gives an open error naming it and no list; otherwise the list is `Urls` of the file's contents |
| UrlSource.ReadUrls | api_monitor.go:128-142 | the read/trim/append loop, ending at the read that meets end of file, returns exactly `Urls(contents)` |
| UrlSource.ReadUrl | api_monitor.go:131-132 | one trimmed `ReadString` result is the first entry of what was left to read, and the rest of the entries follow it; the reader ends just past the next newline, or at the end when there is none (end of file) |
| UrlSource.Reader.constructor | api_monitor.go:128 | a new reader over the file's contents has read nothing yet: all of the contents remain |
| UrlSource.Reader.ReadString | api_monitor.go:131 | returns everything up to and including the next newline and moves past it; with no newline left, returns the remainder with end of file and consumes it |
| UrlSource.Urls | api_monitor.go:130-138 | the list a file yields has one entry per newline plus one (one per `ReadString` call, the end-of-file read included) |
| UrlSource.UrlsAt | api_monitor.go:131-133 | entry k is the trimmed k-th newline-free segment; the segments joined by newlines give back the file; a blank or white-only line becomes `""` and is kept |
| UrlSource.UrlsAreTrimmed | api_monitor.go:132 | no entry starts or ends with white space |
| UrlSource.UrlsTrailingEmpty | api_monitor.go:130-138 | contents ending in a newline give a last entry `""`; empty contents give exactly `[""]` |
| UrlSource.TrimAllAt | api_monitor.go:132-133 | trimming every line keeps the number of lines and the order |
| UrlSource.UrlsUnfold | api_monitor.go:131-133 | trimming a segment with its newline equals trimming the segment; this is the first entry of what is left |
| UrlSource.UrlsOfLastSegment | api_monitor.go:131-136 | the segment read at end of file is the last entry |
| UrlSource.UrlsAfterRead | api_monitor.go:131-133 | a read that finds a newline contributes the first entry, and the entries of the unread part follow |
| Text.SkipSpace | api_monitor.go:132 | the start of the trimmed window lies between `i` and the end of the text |
| Text.SkipSpaceStopsAtText | api_monitor.go:132 | every character from `i` up to the start of the trimmed window is white space, and the character at the start is not |
| Text.BackOverSpace | api_monitor.go:132 | the end of the trimmed window lies between its start and `j` |
| Text.BackOverSpaceStopsAtText | api_monitor.go:132 | every character from the end of the trimmed window up to `j` is white space, and the one before the end (if above the start) is not |
| Text.IsSpaceIsWhiteSpace | api_monitor.go:132 | the white space `TrimSpace` removes (Go's `unicode.IsSpace`) is exactly the 25 characters with the Unicode White_Space property |
| Text.TrimSpace | api_monitor.go:132 | the result is the text with a white prefix and a white suffix cut off, and has no white space at either end |
| Text.TrimmingUnique | api_monitor.go:132 | at most one string is such a trimming of a text, so `TrimSpace` is fully characterized by that property |
| Text.TrimSpaceOfBlank | api_monitor.go:132 | trimming an all-white line gives `""` |
| Text.TrimSpaceIdempotent | api_monitor.go:132 | trimming twice is trimming once |
| Text.TrimSpaceIgnoresTrailingSpace | api_monitor.go:131-132 | the newline that `ReadString` keeps does not change the trimmed entry |
| Text.Find | api_monitor.go:131 | the scan for the delimiter stops between `i` and the end of the text |
| Text.FindIsFirst | api_monitor.go:131 | the scan stops at a delimiter, or at the end when there is none, and passes no delimiter on the way |
| Text.IndexOfIsFirst | api_monitor.go:131 | `IndexOf` is the index of the first newline, or the length when there is none |
| Text.IndexOfUnique | api_monitor.go:131 | the first-delimiter index is determined by its defining properties |
| Text.SplitCount | api_monitor.go:130-138 | splitting at newlines yields exactly one more segment than there are newlines |
| Text.SplitPiecesHaveNoDelimiter | api_monitor.go:131 | no segment contains a newline |
| Text.JoinSplit | api_monitor.go:130-138 | joining the segments with newlines gives back the contents: nothing is lost |
| Text.SplitLastEmpty | api_monitor.go:130-138 | empty contents, or contents ending in a newline, have an empty last segment |
| Health.ConvertToObject | api_monitor.go:146-158 | an unreadable body is an error carrying the read error; a body that is not valid JSON gives `IsHealthy = false`; otherwise the `IsHealthy` the decoder left is returned; the decoder's error is dropped in both cases |
| Health.CheckHealthiness | api_monitor.go:93-107 | a request or body-read error gives `(false, that error)`; otherwise `(IsHealthy, nil)`; healthy exactly when a response came, its body was read, it is valid JSON and it left `IsHealthy = true` |
| Health.DecodeErrorIsSwallowed | api_monitor.go:100-106 | a decoder error is never reported: malformed JSON gives `(false, nil)`, and a body rejected after `IsHealthy` was assigned gives `(IsHealthy, nil)` |
| Monitor.LineFor | api_monitor.go:80-85 | a successful probe prints the report line with the URL and its health; a failed one prints the error line with the probe's error |
| Monitor.Pass | api_monitor.go:67-91 | a pass returns to the menu or exits with -1, exiting exactly when the URL file cannot be opened; it prints the start banner, one line per probed URL and one last line |
| Monitor.LinesAt | api_monitor.go:79-86 | exactly one line per URL, the k-th being the line for the k-th probe of the k-th URL: a probe error does not stop the loop |
| Monitor.SourceErrorIsFatal | api_monitor.go:72-77 | when the URL file cannot be opened, the pass prints exactly the start banner and the open error naming the file, ends with status -1, and probes nothing |
| Monitor.BannersEncloseLines | api_monitor.go:68-90 | the lines of a pass are the start banner, then one line per URL in order, then the end banner |
| Monitor.PassProbesEveryUrl | api_monitor.go:67-91 | over an opened file, the URLs of the file are probed in file order; the banners enclose one line per URL; the program goes on |
| Monitor.RunPass | api_monitor.go:67-91 | the pass prints, probes and ends exactly as `Pass` says |
| Monitor.ProbeAll | api_monitor.go:79-86 | the loop over the URL list probes every URL in list order and prints exactly the lines `Lines` gives: one per URL, whatever the earlier probes returned |
| Shell.ReadOption | api_monitor.go:55-60 | the scanned integer when it fits Go's 64-bit `int`; 0 when the scan fails, since its error is ignored |
| Shell.Dispatch | api_monitor.go:22-36 | 1 monitors sandbox, 2 monitors production, 0 quits with status 0, every other integer quits with status -1 |
| Shell.SessionFrom | api_monitor.go:17-37 | on finite input, with every probe answered, the menu loop from any token on ends with status 0 exactly when its last line is the farewell, and otherwise with -1; what it does with each option is stated by the three option lemmas below |
| Shell.OptionZeroQuits | api_monitor.go:29-31 | a read option 0 ends the session at once with exactly the farewell line and status 0 |
| Shell.OtherOptionExits | api_monitor.go:33-35 | a read integer other than 0, 1 and 2 ends the session at once with exactly the "Invalid option" line and status -1 |
| Shell.MonitorOptionRunsPass | api_monitor.go:17-27 | option 1 runs the sandbox pass and option 2 the production pass, with this pass's world; the session's lines start with that pass's lines; a pass that goes on is followed by the session from the next token and the next pass number, and one that exits ends the session there with status -1 |
| Shell.Session | api_monitor.go:14-38 | on finite input, with every probe answered, the program ends with status 0 exactly when its last line is the farewell, and otherwise with -1; it is the menu loop from the first token and pass 0, so the option lemmas describe each of its steps |
| Shell.UnreadableInputQuits | api_monitor.go:29-31 | a token that is not an integer, or the end of input, reads as option 0: farewell and status 0 |
| Shell.Run | api_monitor.go:14-38 | the menu loop prints and exits exactly as `Session` says; passes return to the menu unless they exit |

## Left out

- HTTP (`http.Get`): the network is an input function from probe number and URL to an outcome. There is no DNS, no redirects, no timeout and no status code (the source never inspects it).
- JSON decoding internals (`json.Unmarshal`): abstracted to whether the body is valid JSON and, if it is, what the call leaves in `IsHealthy` and whether it returned an error.
- Reading the body (`ioutil.ReadAll`): abstracted to success or an error.
- `os.Open`, `file.Close` and `bufio` buffering: the file is a map entry. A file that is present but unreadable is not distinguished from a missing one (both fail to open).
- A read error other than end of file inside the `ReadString` loop is not modelled. The source does not stop the loop on such an error, so it is not clear the loop would terminate.
- Go strings are byte strings and `TrimSpace` decodes them as UTF-8. The model works on characters, so invalid UTF-8 is not modelled.
- Shell.ReadOption: tokens are given already scanned. Which texts `fmt.Scan` accepts as integers is not modelled, and `int` is taken to be 64 bits wide.
- Banner, menu, welcome and blank lines (`welcome`, `showMenu`, `newLine`): pure output. They are not among the modelled `Line`s.
- `os.Exit`: modelled as a returned status value. The model keeps the value -1 that the source passes; the operating system would report it as 255.
- Endless standard input and a GET that never answers: the input is a finite sequence of tokens and the network is a total function. The source's menu loop would run forever on an endless stream of `1`s, and `http.Get` has no timeout, so a probe can hang for good. The model promises an end only for finite input with every probe answered.
- The network and the directory are indexed by pass and probe number. The model does not state how they change over real time.
