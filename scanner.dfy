/**
 * The `DirBusterMini` scanner: its state (the normalised target, the output
 * file name, the list of found paths and the queue of paths still to try),
 * the worker that drains the queue and records what it finds, and `run`,
 * which fills the queue with the incremental paths of depth 2 and hands it
 * to the worker.
 *
 * Two things the scanner does are outside what can be modelled and come in
 * as parameters: `resolve(target, path)` is what `urljoin` makes of the
 * target and a path, and `check(url)` is the status code of a GET request to
 * the URL, `None` when the request fails.
 */
module Scanner {
  import opened Wordlist
  import opened Paths
  import opened Target
  import opened Report

  datatype Option<T> = None | Some(value: T)

  /** A line the worker prints: the `[status] url` text in its colour. */
  datatype Message = Message(color: Color, text: string)

  /** Python truth of a status: `None` and `0` are false. */
  predicate Truthy(status: Option<int>) {
    status.Some? && status.value != 0
  }

  /** Python truth of the output option: it is given and not the empty name. */
  predicate OutputSet(output: Option<string>) {
    output.Some? && output.value != ""
  }

  /** What the worker prints for a response: nothing for a false status, otherwise the coloured found line. */
  function Examine(status: Option<int>, url: string): (m: Option<Message>)
    ensures m.Some? <==> Truthy(status)
    ensures m.Some? ==> m.value.color == StatusColor(status.value) && m.value.text == FoundLine(status.value, url)
  {
    if Truthy(status) then Some(Message(StatusColor(status.value), FoundLine(status.value, url))) else None
  }

  /** What the worker records for a response: the found line, when there is a status and an output file. */
  function Recorded(status: Option<int>, url: string, outputSet: bool): (found: seq<string>)
    ensures found == [] <==> !(outputSet && Truthy(status))
    ensures found != [] ==> found == [FoundLine(status.value, url)]
  {
    if outputSet && Truthy(status) then [FoundLine(status.value, url)] else []
  }

  /** The messages printed while the paths are tried in order. */
  function Messages(paths: seq<string>, target: string, resolve: (string, string) -> string,
                    check: string -> Option<int>): (messages: seq<Message>)
    ensures |messages| <= |paths|
  {
    if paths == [] then []
    else
      var url := resolve(target, paths[|paths| - 1]);
      var m := Examine(check(url), url);
      Messages(paths[..|paths| - 1], target, resolve, check) + (if m.Some? then [m.value] else [])
  }

  /** The lines appended to `found_paths` while the paths are tried in order. */
  function FoundLines(paths: seq<string>, target: string, resolve: (string, string) -> string,
                      check: string -> Option<int>, outputSet: bool): (found: seq<string>)
    ensures |found| <= |paths|
    ensures !outputSet ==> found == []
  {
    if paths == [] then []
    else
      var url := resolve(target, paths[|paths| - 1]);
      FoundLines(paths[..|paths| - 1], target, resolve, check, outputSet) + Recorded(check(url), url, outputSet)
  }

  /** Trying one more path prints its message, if any, after the others. */
  lemma MessagesSnoc(paths: seq<string>, path: string, target: string, resolve: (string, string) -> string,
                     check: string -> Option<int>)
    ensures var url := resolve(target, path);
      var m := Examine(check(url), url);
      Messages(paths + [path], target, resolve, check)
        == Messages(paths, target, resolve, check) + (if m.Some? then [m.value] else [])
  {
    var next := paths + [path];
    assert next[..|next| - 1] == paths;
  }

  /** Trying one more path records its line, if any, after the others. */
  lemma FoundLinesSnoc(paths: seq<string>, path: string, target: string, resolve: (string, string) -> string,
                       check: string -> Option<int>, outputSet: bool)
    ensures var url := resolve(target, path);
      FoundLines(paths + [path], target, resolve, check, outputSet)
        == FoundLines(paths, target, resolve, check, outputSet) + Recorded(check(url), url, outputSet)
  {
    var next := paths + [path];
    assert next[..|next| - 1] == paths;
  }

  /** Taking the head of the queue moves it to the end of what has been processed. */
  lemma Dequeued(processed: seq<string>, queue: seq<string>)
    requires queue != []
    ensures processed + queue == (processed + [queue[0]]) + queue[1..]
  {
    assert queue == [queue[0]] + queue[1..];
  }

  lemma AppendAssociates(a: seq<string>, b: seq<string>, c: seq<string>)
    ensures (a + b) + c == a + (b + c)
  {
  }

  /**
   * One turn of the worker keeps its loop invariant: the head of the queue
   * moves to the processed paths, and its message and found line extend the
   * printed messages and the found paths as the specification functions do.
   */
  lemma WorkerStep(processed: seq<string>, queue: seq<string>, target: string, resolve: (string, string) -> string,
                   check: string -> Option<int>, outputSet: bool, base: seq<string>,
                   messages: seq<Message>, found: seq<string>)
    requires queue != []
    requires messages == Messages(processed, target, resolve, check)
    requires found == base + FoundLines(processed, target, resolve, check, outputSet)
    ensures var url := resolve(target, queue[0]);
      var m := Examine(check(url), url);
      && processed + queue == (processed + [queue[0]]) + queue[1..]
      && messages + (if m.Some? then [m.value] else []) == Messages(processed + [queue[0]], target, resolve, check)
      && found + Recorded(check(url), url, outputSet)
        == base + FoundLines(processed + [queue[0]], target, resolve, check, outputSet)
  {
    var url := resolve(target, queue[0]);
    Dequeued(processed, queue);
    MessagesSnoc(processed, queue[0], target, resolve, check);
    FoundLinesSnoc(processed, queue[0], target, resolve, check, outputSet);
    AppendAssociates(base, FoundLines(processed, target, resolve, check, outputSet), Recorded(check(url), url, outputSet));
  }

  /** Trying two batches of paths one after the other records the two batches' lines one after the other. */
  lemma {:induction false} FoundLinesAppend(a: seq<string>, b: seq<string>, target: string,
                                            resolve: (string, string) -> string, check: string -> Option<int>, outputSet: bool)
    ensures FoundLines(a + b, target, resolve, check, outputSet)
      == FoundLines(a, target, resolve, check, outputSet) + FoundLines(b, target, resolve, check, outputSet)
    decreases |b|
  {
    if b == [] {
      assert a + b == a;
    } else {
      var n := |b| - 1;
      var front := a + b[..n];
      assert a + b == front + [b[n]];
      assert b == b[..n] + [b[n]];
      var url := resolve(target, b[n]);
      var left := FoundLines(a, target, resolve, check, outputSet);
      var middle := FoundLines(b[..n], target, resolve, check, outputSet);
      var right := Recorded(check(url), url, outputSet);
      FoundLinesSnoc(front, b[n], target, resolve, check, outputSet);
      FoundLinesAppend(a, b[..n], target, resolve, check, outputSet);
      assert FoundLines(a + b, target, resolve, check, outputSet) == (left + middle) + right;
      FoundLinesSnoc(b[..n], b[n], target, resolve, check, outputSet);
      assert FoundLines(b, target, resolve, check, outputSet) == middle + right;
      assert (left + middle) + right == left + (middle + right);
    }
  }

  /**
   * With an output file, a line is recorded exactly when some path answered
   * with a true status and the line is that status and URL. There is no
   * filter on the status: 404 and 500 are recorded like 200.
   */
  lemma {:induction false} FoundLinesMember(paths: seq<string>, target: string, resolve: (string, string) -> string,
                                            check: string -> Option<int>, line: string)
    ensures line in FoundLines(paths, target, resolve, check, true) <==>
      exists k :: 0 <= k < |paths| && Truthy(check(resolve(target, paths[k])))
        && line == FoundLine(check(resolve(target, paths[k])).value, resolve(target, paths[k]))
    decreases |paths|
  {
    if paths != [] {
      var n := |paths| - 1;
      var front := paths[..n];
      var url := resolve(target, paths[n]);
      FoundLinesMember(front, target, resolve, check, line);
      assert FoundLines(paths, target, resolve, check, true)
        == FoundLines(front, target, resolve, check, true) + Recorded(check(url), url, true);
      assert forall k :: 0 <= k < n ==> front[k] == paths[k];
      if line in FoundLines(paths, target, resolve, check, true) {
        if line !in FoundLines(front, target, resolve, check, true) {
          assert line in Recorded(check(url), url, true);
          assert Truthy(check(resolve(target, paths[n])));
        }
      }
      if (exists k :: 0 <= k < |paths| && Truthy(check(resolve(target, paths[k])))
            && line == FoundLine(check(resolve(target, paths[k])).value, resolve(target, paths[k]))) {
        var k :| 0 <= k < |paths| && Truthy(check(resolve(target, paths[k])))
          && line == FoundLine(check(resolve(target, paths[k])).value, resolve(target, paths[k]));
        if k == n {
          assert Recorded(check(url), url, true) == [line];
        }
      }
    }
  }

  /** A path that answers 404 is recorded all the same. */
  lemma NotFoundIsRecorded(paths: seq<string>, k: nat, target: string, resolve: (string, string) -> string,
                           check: string -> Option<int>)
    requires k < |paths| && check(resolve(target, paths[k])) == Some(404)
    ensures FoundLine(404, resolve(target, paths[k])) in FoundLines(paths, target, resolve, check, true)
  {
    FoundLinesMember(paths, target, resolve, check, FoundLine(404, resolve(target, paths[k])));
  }

  /** With an output file, the recorded lines are the printed messages' texts, one for one and in order. */
  lemma {:induction false} FoundLinesAreMessages(paths: seq<string>, target: string, resolve: (string, string) -> string,
                                                 check: string -> Option<int>)
    ensures var found := FoundLines(paths, target, resolve, check, true);
      var messages := Messages(paths, target, resolve, check);
      |found| == |messages| && forall k :: 0 <= k < |found| ==> found[k] == messages[k].text
    decreases |paths|
  {
    if paths != [] {
      FoundLinesAreMessages(paths[..|paths| - 1], target, resolve, check);
    }
  }

  /** The file `run` writes at the end: the found lines joined by newlines, if there is an output file and anything was found. */
  function SavedResults(output: Option<string>, found: seq<string>): (file: Option<string>)
    ensures file.Some? <==> OutputSet(output) && found != []
  {
    if OutputSet(output) && found != [] then Some(JoinLines(found)) else None
  }

  /** The results file reads back line by line as the found lines. */
  lemma SavedResultsReadBack(output: Option<string>, found: seq<string>)
    requires OutputSet(output) && found != []
    requires forall k :: 0 <= k < |found| ==> '\n' !in found[k]
    ensures SplitLines(SavedResults(output, found).value) == found
  {
    SplitJoinLines(found);
  }

  class DirBusterMini {
    var target: string
    var output: Option<string>
    var foundPaths: seq<string>
    var queue: seq<string>

    /** A scanner for `target` (normalised so that it carries a scheme), with nothing found and nothing queued. */
    constructor(target: string, output: Option<string>)
      ensures this.target == NormalizeTargetWithScheme(target) && HasScheme(this.target)
      ensures this.output == output
      ensures foundPaths == [] && queue == []
    {
      this.target := NormalizeTargetWithScheme(target);
      this.output := output;
      foundPaths := [];
      queue := [];
    }

    /** The handling of one response: the message to print, and the found line appended when there is an output file. */
    method Record(status: Option<int>, url: string) returns (message: Option<Message>)
      modifies this`foundPaths
      ensures message == Examine(status, url)
      ensures foundPaths == old(foundPaths) + Recorded(status, url, OutputSet(output))
    {
      message := None;
      if Truthy(status) {
        var code := status.value;
        var color;
        if code == 200 {
          color := Green;
        } else if code in RedirectStatuses {
          color := Blue;
        } else if code == 403 {
          color := Yellow;
        } else if code == 401 {
          color := Magenta;
        } else {
          color := Cyan;
        }
        message := Some(Message(color, FoundLine(code, url)));
        if OutputSet(output) {
          foundPaths := foundPaths + [FoundLine(code, url)];
        }
      }
    }

    method Enqueue(path: string)
      modifies this`queue
      ensures queue == old(queue) + [path]
    {
      queue := queue + [path];
    }

    /** One turn of the worker loop: take the path at the head of the queue, try its URL and handle the response. */
    method ProcessNext(resolve: (string, string) -> string, check: string -> Option<int>)
      returns (path: string, message: Option<Message>)
      requires queue != []
      modifies this`queue, this`foundPaths
      ensures path == old(queue[0]) && queue == old(queue[1..])
      ensures var url := resolve(target, path);
        && message == Examine(check(url), url)
        && foundPaths == old(foundPaths) + Recorded(check(url), url, OutputSet(output))
    {
      path := queue[0];
      queue := queue[1..];
      var url := resolve(target, path);
      var status := check(url);
      message := Record(status, url);
    }

    /**
     * The worker: until the queue is empty, take the path at its head, try
     * the URL it resolves to and handle the response.
     */
    method Worker(resolve: (string, string) -> string, check: string -> Option<int>) returns (messages: seq<Message>)
      modifies this`queue, this`foundPaths
      ensures queue == []
      ensures messages == Messages(old(queue), target, resolve, check)
      ensures foundPaths == old(foundPaths) + FoundLines(old(queue), target, resolve, check, OutputSet(output))
    {
      ghost var processed: seq<string> := [];
      messages := [];
      while queue != []
        invariant processed + queue == old(queue)
        invariant messages == Messages(processed, target, resolve, check)
        invariant foundPaths == old(foundPaths) + FoundLines(processed, target, resolve, check, OutputSet(output))
        decreases |queue|
      {
        WorkerStep(processed, queue, target, resolve, check, OutputSet(output), old(foundPaths), messages, foundPaths);
        var path, message := ProcessNext(resolve, check);
        messages := messages + (if message.Some? then [message.value] else []);
        processed := processed + [path];
      }
      assert processed + [] == processed;
    }

    /**
     * `run`: generate the paths of depth 2 from the wordlist's lines, queue
     * them in order, let the worker drain the queue, and produce the results
     * file when there is an output file and something was found.
     */
    method Run(lines: seq<string>, resolve: (string, string) -> string, check: string -> Option<int>)
      returns (messages: seq<Message>, saved: Option<string>)
      modifies this`queue, this`foundPaths
      ensures queue == []
      ensures messages == Messages(old(queue) + IncrementalPaths(LoadWords(lines), 2), target, resolve, check)
      ensures foundPaths
        == old(foundPaths) + FoundLines(old(queue) + IncrementalPaths(LoadWords(lines), 2), target, resolve, check, OutputSet(output))
      ensures saved == SavedResults(output, foundPaths)
    {
      var words := LoadWords(lines);
      var paths := GenerateIncrementalPaths(words, 2);
      for i := 0 to |paths|
        invariant queue == old(queue) + paths[..i]
        invariant foundPaths == old(foundPaths)
      {
        Enqueue(paths[i]);
        assert paths[..i + 1] == paths[..i] + [paths[i]];
      }
      assert paths[..|paths|] == paths;
      messages := Worker(resolve, check);
      if OutputSet(output) && foundPaths != [] {
        saved := Some(JoinLines(foundPaths));
      } else {
        saved := None;
      }
    }
  }

  /**
   * A fresh scan with an output file records every generated path that
   * answers with a true status, whatever the status is.
   */
  lemma ScanRecordsEveryLivePath(lines: seq<string>, target: string, resolve: (string, string) -> string,
                                 check: string -> Option<int>, k: nat)
    requires k < |IncrementalPaths(LoadWords(lines), 2)|
    requires Truthy(check(resolve(target, IncrementalPaths(LoadWords(lines), 2)[k])))
    ensures var path := IncrementalPaths(LoadWords(lines), 2)[k];
      var url := resolve(target, path);
      FoundLine(check(url).value, url) in FoundLines(IncrementalPaths(LoadWords(lines), 2), target, resolve, check, true)
  {
    var paths := IncrementalPaths(LoadWords(lines), 2);
    var url := resolve(target, paths[k]);
    FoundLinesMember(paths, target, resolve, check, FoundLine(check(url).value, url));
  }
}
