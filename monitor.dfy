/** One monitoring pass (`monitor`): read the URL list of the environment,
    and probe every URL in order, printing one line per URL. A URL file that
    cannot be opened ends the whole program with status -1 before any probe. */
module Monitor {
  import opened Common
  import opened Text
  import opened UrlSource
  import opened Health

  /** The lines the program prints (blank separator lines, the banner and
      the menu are not modelled). */
  datatype Line =
    | Started                          // "-- API MONITOR STARTED --"
    | SourceError(err: Error)          // "Error on <err>"
    | ProbeError(err: Error)           // "Error: <err>"
    | Report(url: string, isHealthy: bool) // "API: <url>  - IsHealthy: <bool>"
    | Ended                            // "-- API MONITOR ENDED --"
    | Farewell                         // "See you later, my friend"
    | InvalidOption                    // "Invalid option"

  /** The network during a pass: the outcome of the `k`-th GET of the pass,
      issued for `url`. */
  type Network = (nat, string) -> HttpOutcome

  /** The line printed for one probed URL. */
  function LineFor(url: string, outcome: HttpOutcome): (line: Line)
    ensures line.Report? || line.ProbeError?
    ensures line.Report? <==> CheckHealthiness(outcome).err.None?
    ensures line.Report? ==> line == Report(url, CheckHealthiness(outcome).healthy)
    ensures line.ProbeError? ==> Some(line.err) == CheckHealthiness(outcome).err
  {
    var verdict := CheckHealthiness(outcome);
    if verdict.err.Some? then ProbeError(verdict.err.value) else Report(url, verdict.healthy)
  }

  /** The lines printed for the URLs in order, the `k`-th probe being of `urls[k]`. */
  function Lines(urls: seq<string>, network: Network): seq<Line>
    decreases |urls|
  {
    if urls == [] then []
    else var n := |urls| - 1; Lines(urls[..n], network) + [LineFor(urls[n], network(n, urls[n]))]
  }

  /** Exactly one line per URL, in list order: a probe error never stops the
      remaining URLs from being probed. */
  lemma {:induction false} LinesAt(urls: seq<string>, network: Network)
    ensures |Lines(urls, network)| == |urls|
    ensures forall k :: 0 <= k < |urls| ==> Lines(urls, network)[k] == LineFor(urls[k], network(k, urls[k]))
    decreases |urls|
  {
    if urls != [] {
      var n := |urls| - 1;
      LinesAt(urls[..n], network);
    }
  }

  /** What one call of `monitor` does. */
  datatype PassOutcome = PassOutcome(lines: seq<Line>, probed: seq<string>, status: Status)

  /** The specification of a pass over the working directory `files`. A pass
      either returns to the menu or ends the program with status -1, and it
      does the latter exactly when the URL file cannot be opened. It prints
      one line per probed URL, after the start banner and before a last line
      that is the end banner or the open error. */
  function Pass(environment: string, files: map<string, seq<char>>, network: Network): (r: PassOutcome)
    ensures r.status == Continue || r.status == Exit(-1)
    ensures r.status.Exit? <==> FileName(environment) !in files
    ensures |r.lines| == |r.probed| + 2 && r.lines[0] == Started
  {
    var name := FileName(environment);
    if name !in files then PassOutcome([Started, SourceError(OpenFailed(name))], [], Exit(-1))
    else var urls := Urls(files[name]);
      LinesAt(urls, network);
      PassOutcome([Started] + Lines(urls, network) + [Ended], urls, Continue)
  }

  /** A URL file that cannot be opened is fatal: the open error is printed
      after the start banner, the status is -1, and no URL is probed. */
  lemma SourceErrorIsFatal(environment: string, files: map<string, seq<char>>, network: Network)
    requires FileName(environment) !in files
    ensures var pass := Pass(environment, files, network);
      pass.lines == [Started, SourceError(OpenFailed(FileName(environment)))] &&
      pass.status == Exit(-1) && pass.probed == [] &&
      forall k :: 0 <= k < |pass.lines| ==> !pass.lines[k].Report? && !pass.lines[k].ProbeError?
  {
  }

  /** A pass over an opened file probes each URL of the file, in file order,
      and prints, between the two banners, one line per URL: the report line
      when the probe succeeded, the error line when it failed. The pass does
      not end the program. */
  lemma PassProbesEveryUrl(environment: string, files: map<string, seq<char>>, network: Network)
    requires FileName(environment) in files
    ensures var urls := Urls(files[FileName(environment)]);
      var pass := Pass(environment, files, network);
      pass.status == Continue && pass.probed == urls && BannersEnclose(pass.lines, urls, network)
  {
    var urls := Urls(files[FileName(environment)]);
    BannersEncloseLines(urls, network);
  }

  /** `lines` is the two banners around one line per URL, in order. */
  predicate BannersEnclose(lines: seq<Line>, urls: seq<string>, network: Network) {
    |lines| == |urls| + 2 && lines[0] == Started && lines[|urls| + 1] == Ended &&
    forall k :: 0 <= k < |urls| ==> lines[k + 1] == LineFor(urls[k], network(k, urls[k]))
  }

  lemma BannersEncloseLines(urls: seq<string>, network: Network)
    ensures BannersEnclose([Started] + Lines(urls, network) + [Ended], urls, network)
  {
    LinesAt(urls, network);
  }

  /** `monitor`: read the URL list, then probe each URL in turn. */
  method RunPass(environment: string, files: map<string, seq<char>>, network: Network)
      returns (lines: seq<Line>, probed: seq<string>, status: Status)
    ensures PassOutcome(lines, probed, status) == Pass(environment, files, network)
  {
    var source := ExtractUrlsFromTxt(environment, files);
    if source.Failure? {
      return [Started, SourceError(source.error)], [], Exit(-1);
    }
    var probeLines;
    probeLines, probed := ProbeAll(source.value, network);
    lines := [Started] + probeLines + [Ended];
    status := Continue;
  }

  /** The loop of `monitor` over the URL list: probe each URL in turn and
      print its line, whatever the outcome of the probes before it. */
  method ProbeAll(urls: seq<string>, network: Network) returns (lines: seq<Line>, probed: seq<string>)
    ensures lines == Lines(urls, network) && probed == urls
  {
    lines := [];
    probed := [];
    for i := 0 to |urls|
      invariant lines == Lines(urls[..i], network)
      invariant probed == urls[..i]
    {
      var outcome := network(i, urls[i]);
      probed := probed + [urls[i]];
      var verdict := CheckHealthiness(outcome);
      if verdict.err.Some? {
        lines := lines + [ProbeError(verdict.err.value)];
      } else {
        lines := lines + [Report(urls[i], verdict.healthy)];
      }
      assert urls[..i + 1][..i] == urls[..i];
    }
    assert urls[..|urls|] == urls;
  }
}
