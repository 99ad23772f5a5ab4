/** The URL source reader: `extractUrlsFromTxt` picks a file after the
    environment, reads it with successive `ReadString('\n')` calls until end
    of file, trims each piece and collects every piece, blank ones included. */
module UrlSource {
  import opened Common
  import opened Text

  const PRODUCTION: string := "production"
  const SANDBOX: string := "sandbox"

  /** The name of the file `extractUrlsFromTxt` opens for `environment`. */
  function FileName(environment: string): (name: string)
    ensures name == "production.txt" <==> environment == PRODUCTION
    ensures name == "sandbox.txt" <==> environment != PRODUCTION
  {
    (if environment == PRODUCTION then PRODUCTION else SANDBOX) + ".txt"
  }

  /** The URL list that a file with these contents yields: each
      newline-separated segment, trimmed, in file order. There is one URL per
      `ReadString` call: one per newline, plus the final read that meets end
      of file. */
  function Urls(contents: seq<char>): (urls: seq<string>)
    ensures |urls| == multiset(contents)['\n'] + 1
  {
    TrimAllAt(Split(contents, '\n'));
    SplitCount(contents, '\n');
    TrimAll(Split(contents, '\n'))
  }

  /** `strings.TrimSpace` applied to each line, order kept. */
  function TrimAll(lines: seq<seq<char>>): (r: seq<string>)
    decreases |lines|
  {
    if lines == [] then [] else [TrimSpace(lines[0])] + TrimAll(lines[1..])
  }

  /** `TrimAll` keeps the number of lines and trims each one in place. */
  lemma {:induction false} TrimAllAt(lines: seq<seq<char>>)
    ensures |TrimAll(lines)| == |lines|
    ensures forall k :: 0 <= k < |lines| ==> TrimAll(lines)[k] == TrimSpace(lines[k])
    decreases |lines|
  {
    if lines != [] {
      TrimAllAt(lines[1..]);
      var r := TrimAll(lines);
      assert r == [TrimSpace(lines[0])] + TrimAll(lines[1..]);
      forall k | 0 <= k < |lines| ensures r[k] == TrimSpace(lines[k]) {
        if k > 0 { assert r[k] == TrimAll(lines[1..])[k - 1]; }
      }
    }
  }

  /** Entry `k` is the trimmed `k`-th segment of the file, so the file's order
      is kept and a blank or white-only line gives `""` rather than being
      dropped. The segments are newline-free and make up the whole file. */
  lemma UrlsAt(contents: seq<char>, k: nat)
    requires k < |Urls(contents)|
    ensures var lines := Split(contents, '\n');
      |Urls(contents)| == |lines| && Join(lines, '\n') == contents &&
      '\n' !in lines[k] && Urls(contents)[k] == TrimSpace(lines[k]) &&
      (AllSpace(lines[k]) ==> Urls(contents)[k] == "")
  {
    var lines := Split(contents, '\n');
    TrimAllAt(lines);
    JoinSplit(contents, '\n');
    SplitPiecesHaveNoDelimiter(contents, '\n');
    if AllSpace(lines[k]) { TrimSpaceOfBlank(lines[k]); }
  }

  /** No entry starts or ends with white space. */
  lemma UrlsAreTrimmed(contents: seq<char>)
    ensures forall k :: 0 <= k < |Urls(contents)| ==> NoOuterSpace(Urls(contents)[k])
  {
    var lines := Split(contents, '\n');
    TrimAllAt(lines);
    forall k | 0 <= k < |lines| ensures NoOuterSpace(Urls(contents)[k]) {
      assert Urls(contents)[k] == TrimSpace(lines[k]);
    }
  }

  /** A file ending with a newline, or an empty file, yields a last entry `""`;
      an empty file yields exactly `[""]`. */
  lemma UrlsTrailingEmpty(contents: seq<char>)
    requires |contents| == 0 || contents[|contents| - 1] == '\n'
    ensures |Urls(contents)| > 0 && Urls(contents)[|Urls(contents)| - 1] == ""
    ensures contents == [] ==> Urls(contents) == [""]
  {
    var lines := Split(contents, '\n');
    SplitCount(contents, '\n');
    SplitLastEmpty(contents, '\n');
    TrimAllAt(lines);
    TrimSpaceOfBlank([]);
  }

  /** Reading the segment up to and including the next newline and trimming
      it contributes the first entry of what is left. */
  lemma UrlsUnfold(rest: seq<char>, i: nat)
    requires i == IndexOf(rest, '\n') && i < |rest|
    ensures Urls(rest) == [TrimSpace(rest[..i + 1])] + Urls(rest[i + 1..])
  {
    IndexOfIsFirst(rest, '\n');
    assert rest[..i + 1] == rest[..i] + ['\n'];
    TrimSpaceIgnoresTrailingSpace(rest[..i], '\n');
  }

  /** The segment that meets end of file is the last entry. */
  lemma UrlsOfLastSegment(rest: seq<char>, line: seq<char>)
    requires IndexOf(rest, '\n') == |rest| && line == rest
    ensures Urls(rest) == [TrimSpace(line)]
  {
    assert Split(rest, '\n') == [rest];
    assert [rest][1..] == [];
    assert TrimAll([rest]) == [TrimSpace(rest)] + TrimAll([]);
  }

  /** A `ReadString('\n')` that finds a newline returns a piece whose
      trimming is the first entry of what was left; the entries of what is
      left after it follow. */
  lemma UrlsAfterRead(rest: seq<char>, line: seq<char>, remaining: seq<char>)
    requires IndexOf(rest, '\n') < |rest|
    requires line == rest[..IndexOf(rest, '\n') + 1] && remaining == rest[IndexOf(rest, '\n') + 1..]
    ensures Urls(rest) == [TrimSpace(line)] + Urls(remaining)
  {
    UrlsUnfold(rest, IndexOf(rest, '\n'));
  }

  /** A `bufio.Reader` over the contents of an opened file. */
  class Reader {
    const data: seq<char>
    var pos: nat

    ghost predicate Valid()
      reads this
    {
      pos <= |data|
    }

    /** What the reader has not yet returned. */
    function Remaining(): seq<char>
      reads this
      requires Valid()
    {
      data[pos..]
    }

    constructor (contents: seq<char>)
      ensures Valid() && data == contents && Remaining() == contents
    {
      data := contents;
      pos := 0;
    }

    /** `ReadString(delim)`: everything up to and including the next `delim`;
        when there is none, what is left together with `atEof` (io.EOF). */
    method ReadString(delim: char) returns (line: seq<char>, atEof: bool)
      requires Valid()
      modifies this
      ensures Valid()
      ensures atEof <==> IndexOf(old(Remaining()), delim) == |old(Remaining())|
      ensures !atEof ==> var i := IndexOf(old(Remaining()), delim);
        line == old(Remaining())[..i + 1] && Remaining() == old(Remaining())[i + 1..]
      ensures atEof ==> line == old(Remaining()) && Remaining() == []
    {
      var j := pos;
      while j < |data| && data[j] != delim
        invariant pos <= j <= |data|
        invariant forall k :: pos <= k < j ==> data[k] != delim
      {
        j := j + 1;
      }
      IndexOfUnique(data[pos..], delim, j - pos);
      if j < |data| {
        line, atEof := data[pos..j + 1], false;
        pos := j + 1;
      } else {
        line, atEof := data[pos..], true;
        pos := |data|;
      }
    }
  }

  /** `extractUrlsFromTxt`: with `files` standing for the working directory,
      a missing file is an open error and no list; otherwise the list is
      `Urls` of the file's contents. */
  method ExtractUrlsFromTxt(environment: string, files: map<string, seq<char>>)
      returns (r: Result<seq<string>, Error>)
    ensures FileName(environment) !in files ==> r == Failure(OpenFailed(FileName(environment)))
    ensures FileName(environment) in files ==> r == Success(Urls(files[FileName(environment)]))
  {
    var fileName := FileName(environment);
    if fileName !in files {
      return Failure(OpenFailed(fileName));
    }
    var urls := ReadUrls(files[fileName]);
    return Success(urls);
  }

  /** One turn of the reading loop: `ReadString('\n')` followed by
      `strings.TrimSpace`. The piece it yields is the first entry of what was
      left to read; the entries of what is left now follow it. */
  method ReadUrl(reader: Reader) returns (url: string, atEof: bool)
    requires reader.Valid()
    modifies reader
    ensures reader.Valid()
    ensures atEof ==> Urls(old(reader.Remaining())) == [url]
    ensures !atEof ==> Urls(old(reader.Remaining())) == [url] + Urls(reader.Remaining())
    ensures !atEof ==> |reader.Remaining()| < |old(reader.Remaining())|
    ensures atEof <==> IndexOf(old(reader.Remaining()), '\n') == |old(reader.Remaining())|
    ensures atEof ==> reader.Remaining() == []
    ensures !atEof ==> reader.Remaining() == old(reader.Remaining())[IndexOf(old(reader.Remaining()), '\n') + 1..]
  {
    ghost var rest := reader.Remaining();
    var line;
    line, atEof := reader.ReadString('\n');
    url := TrimSpace(line);
    if atEof {
      UrlsOfLastSegment(rest, line);
    } else {
      UrlsAfterRead(rest, line, reader.Remaining());
    }
  }

  /** The loop of `extractUrlsFromTxt` over an opened file: read, trim and
      append every piece, until the read that meets end of file. */
  method ReadUrls(contents: seq<char>) returns (urls: seq<string>)
    ensures urls == Urls(contents)
  {
    var reader := new Reader(contents);
    urls := [];
    ghost var rest := contents;
    while true
      invariant reader.Valid() && rest == reader.Remaining()
      invariant urls + Urls(rest) == Urls(contents)
      decreases |rest|
    {
      var url, atEof := ReadUrl(reader);
      ghost var next := reader.Remaining();
      ghost var before := urls;
      urls := urls + [url];
      if atEof {
        assert Urls(rest) == [url];
        break;
      }
      Appended(before, [url], Urls(next), Urls(rest), Urls(contents));
      rest := next;
    }
  }

  /** Moving one entry from what is left to what has been read. A lemma of
      its own so that the `Urls` terms stay out of the loop body's proof. */
  lemma Appended(done: seq<string>, url: seq<string>, tail: seq<string>, left: seq<string>, all: seq<string>)
    requires done + left == all && left == url + tail
    ensures (done + url) + tail == all
  {
  }
}
