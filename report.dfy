/**
 * What the worker makes of one response: the colour its status is shown in,
 * the `[status] url` line it shows and records, and the results file that
 * `run` writes from the recorded lines.
 */
module Report {
  import opened Text

  /** The colorama foreground colours the worker chooses from. */
  datatype Color = Green | Blue | Yellow | Magenta | Cyan

  /** The redirect statuses, all shown in blue. */
  const RedirectStatuses: set<int> := {301, 302, 307, 308}

  /** Every status with a colour of its own; the rest are shown in cyan. */
  const DistinguishedStatuses: set<int> := {200, 401, 403} + RedirectStatuses

  /** The colour of a status: 200, the redirects, 403 and 401 each have their own, anything else is cyan. */
  function StatusColor(status: int): (c: Color)
    ensures c == Green <==> status == 200
    ensures c == Blue <==> status in RedirectStatuses
    ensures c == Yellow <==> status == 403
    ensures c == Magenta <==> status == 401
    ensures c == Cyan <==> status !in DistinguishedStatuses
  {
    if status == 200 then Green
    else if status in RedirectStatuses then Blue
    else if status == 403 then Yellow
    else if status == 401 then Magenta
    else Cyan
  }

  /** A found path, shown and recorded as `[status] url`. */
  function FoundLine(status: int, url: string): (line: string)
    ensures |line| == |IntToString(status)| + |url| + 3
    ensures line[0] == '[' && line[|IntToString(status)| + 1..|IntToString(status)| + 3] == "] "
    ensures line[1..|IntToString(status)| + 1] == IntToString(status) && line[|IntToString(status)| + 3..] == url
  {
    "[" + IntToString(status) + "] " + url
  }

  /** The first `]` of a found line closes the status. */
  lemma FoundLineBracket(status: int, url: string)
    ensures var d := IntToString(status);
      && FoundLine(status, url)[1 + |d|] == ']'
      && (forall k :: 1 <= k <= |d| ==> FoundLine(status, url)[k] != ']')
      && FoundLine(status, url)[1..1 + |d|] == d
      && FoundLine(status, url)[3 + |d|..] == url
  {
    var d := IntToString(status);
    var line := FoundLine(status, url);
    assert forall k :: 1 <= k <= |d| ==> line[k] == d[k - 1];
  }

  /** Status and URL can be read back from a found line: different findings give different lines. */
  lemma FoundLineInjective(status1: int, url1: string, status2: int, url2: string)
    requires FoundLine(status1, url1) == FoundLine(status2, url2)
    ensures status1 == status2 && url1 == url2
  {
    FoundLineBracket(status1, url1);
    FoundLineBracket(status2, url2);
    var d1, d2 := IntToString(status1), IntToString(status2);
    assert |d1| == |d2|;
    IntToStringInjective(status1, status2);
  }

  /** A found line spans one line of text exactly when its URL does. */
  lemma FoundLineNoNewline(status: int, url: string)
    ensures '\n' in FoundLine(status, url) <==> '\n' in url
  {
    var d := IntToString(status);
    var line := FoundLine(status, url);
    assert line == ("[" + d + "] ") + url;
    assert '\n' !in "[" + d + "] " by {
      assert forall k :: 0 <= k < |d| ==> d[k] != '\n';
    }
  }

  /** `"\n".join(lines)`. */
  function JoinLines(lines: seq<string>): (text: string)
    decreases |lines|
  {
    if |lines| == 0 then ""
    else if |lines| == 1 then lines[0]
    else JoinLines(lines[..|lines| - 1]) + "\n" + lines[|lines| - 1]
  }

  /** The position of the last occurrence of `c` in `s`, or -1. */
  function LastIndexOf(s: string, c: char): (i: int)
    ensures -1 <= i < |s|
    ensures 0 <= i ==> s[i] == c
    ensures forall k :: i < k < |s| ==> s[k] != c
  {
    if s == [] then -1
    else if s[|s| - 1] == c then |s| - 1
    else LastIndexOf(s[..|s| - 1], c)
  }

  /** `text.split("\n")`: the pieces between newlines, always at least one. */
  function SplitLines(text: string): (lines: seq<string>)
    ensures |lines| >= 1
    ensures forall k :: 0 <= k < |lines| ==> '\n' !in lines[k]
    decreases |text|
  {
    var i := LastIndexOf(text, '\n');
    if i < 0 then [text]
    else SplitLines(text[..i]) + [text[i + 1..]]
  }

  /** Joining two pieces with a newline: the last newline is the joining one, and the pieces split back out. */
  lemma SplitAtJoin(head: string, last: string)
    requires '\n' !in last
    ensures var text := head + "\n" + last;
      && LastIndexOf(text, '\n') == |head|
      && text[..|head|] == head
      && text[|head| + 1..] == last
  {
    var text := head + "\n" + last;
    assert text[|head|] == '\n';
    assert forall k :: |head| < k < |text| ==> text[k] == last[k - |head| - 1];
    assert forall k :: |head| < k < |text| ==> text[k] != '\n';
  }

  /** A piece after the last newline splits off as the last line. */
  lemma SplitLinesSnoc(head: string, last: string)
    requires '\n' !in last
    ensures SplitLines(head + "\n" + last) == SplitLines(head) + [last]
  {
    SplitAtJoin(head, last);
  }

  /** A text without newlines is a single line. */
  lemma SplitLinesSingle(line: string)
    requires '\n' !in line
    ensures SplitLines(line) == [line]
  {
    assert LastIndexOf(line, '\n') == -1;
  }

  lemma SnocSlice(lines: seq<string>)
    requires lines != []
    ensures lines[..|lines| - 1] + [lines[|lines| - 1]] == lines
  {
  }

  /** A results file reads back as the lines it was written from, as long as none of them holds a newline. */
  lemma {:induction false} SplitJoinLines(lines: seq<string>)
    requires lines != []
    requires forall k :: 0 <= k < |lines| ==> '\n' !in lines[k]
    ensures SplitLines(JoinLines(lines)) == lines
    decreases |lines|
  {
    var last := lines[|lines| - 1];
    if |lines| == 1 {
      SplitLinesSingle(last);
    } else {
      var front := lines[..|lines| - 1];
      SplitLinesSnoc(JoinLines(front), last);
      SplitJoinLines(front);
      SnocSlice(lines);
    }
  }
}
