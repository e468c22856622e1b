/**
 * The filtering step of `load_wordlist`: every line of the wordlist file is
 * stripped, lines that strip to nothing are dropped, and the rest are kept in
 * file order, duplicates included. Opening and decoding the file are not part
 * of this module; the lines arrive as a sequence, as text-mode reading
 * splits the file: each line ends in `\n`, except perhaps the last.
 */
module Wordlist {
  import opened Text

  /** What one line contributes: its stripped form, unless that is empty. */
  function Kept(line: string): (r: seq<string>)
    ensures |r| <= 1
  {
    if Strip(line) != [] then [Strip(line)] else []
  }

  /** `[line.strip() for line in f if line.strip()]`. */
  function LoadWords(lines: seq<string>): (words: seq<string>)
    ensures |words| <= |lines|
    ensures forall k :: 0 <= k < |words| ==> words[k] != []
  {
    if lines == [] then [] else LoadWords(lines[..|lines| - 1]) + Kept(lines[|lines| - 1])
  }

  /** The positions of the lines that survive the filter, in increasing order. */
  function KeptIndices(lines: seq<string>): (idx: seq<nat>)
    ensures forall a, b :: 0 <= a < b < |idx| ==> idx[a] < idx[b]
    ensures forall i :: i in idx <==> 0 <= i < |lines| && Strip(lines[i]) != []
  {
    if lines == [] then []
    else
      var n := |lines| - 1;
      var prev := KeptIndices(lines[..n]);
      assert forall i :: 0 <= i < n ==> lines[..n][i] == lines[i];
      assert forall a :: 0 <= a < |prev| ==> prev[a] in prev;
      prev + (if Strip(lines[n]) != [] then [n] else [])
  }

  /**
   * The filter keeps exactly the lines at `KeptIndices(lines)`, in that order,
   * and each one as its stripped form.
   */
  lemma {:induction false} LoadWordsSelects(lines: seq<string>)
    ensures |LoadWords(lines)| == |KeptIndices(lines)|
    ensures forall k :: 0 <= k < |LoadWords(lines)| ==>
      KeptIndices(lines)[k] < |lines| && LoadWords(lines)[k] == Strip(lines[KeptIndices(lines)[k]])
  {
    if lines != [] {
      var n := |lines| - 1;
      LoadWordsSelects(lines[..n]);
      assert forall i :: 0 <= i < n ==> lines[..n][i] == lines[i];
    }
  }

  /** Every loaded word is already stripped and non-empty. */
  lemma LoadWordsStripped(lines: seq<string>, k: nat)
    requires k < |LoadWords(lines)|
    ensures LoadWords(lines)[k] != [] && Strip(LoadWords(lines)[k]) == LoadWords(lines)[k]
  {
    LoadWordsSelects(lines);
    StripIdempotent(lines[KeptIndices(lines)[k]]);
  }

  /** One more line contributes what it keeps, at the end. */
  lemma LoadWordsSnoc(lines: seq<string>, line: string)
    ensures LoadWords(lines + [line]) == LoadWords(lines) + Kept(line)
  {
    var next := lines + [line];
    assert next[..|next| - 1] == lines;
  }

  /** Filtering a concatenation filters each part: nothing is deduplicated across lines. */
  lemma {:induction false} LoadWordsAppend(a: seq<string>, b: seq<string>)
    ensures LoadWords(a + b) == LoadWords(a) + LoadWords(b)
    decreases |b|
  {
    if b == [] {
      assert a + b == a;
    } else {
      var n := |b| - 1;
      var front := a + b[..n];
      assert a + b == front + [b[n]];
      assert b == b[..n] + [b[n]];
      var left, middle, right := LoadWords(a), LoadWords(b[..n]), Kept(b[n]);
      LoadWordsSnoc(front, b[n]);
      LoadWordsAppend(a, b[..n]);
      assert LoadWords(a + b) == (left + middle) + right;
      LoadWordsSnoc(b[..n], b[n]);
      assert LoadWords(b) == middle + right;
      assert (left + middle) + right == left + (middle + right);
    }
  }

  /**
   * A word listed twice is loaded twice, and a line that strips to nothing
   * between the two copies vanishes.
   */
  lemma LoadWordsKeepsDuplicates(first: string, blank: string, second: string)
    requires Strip(first) != [] && Strip(second) == Strip(first)
    requires Strip(blank) == []
    ensures LoadWords([first, blank, second]) == [Strip(first), Strip(first)]
  {
    LoadWordsThree(first, blank, second);
  }

  lemma LoadWordsTwo(a: string, b: string)
    ensures LoadWords([a, b]) == Kept(a) + Kept(b)
  {
    LoadWordsSnoc([], a);
    assert [] + [a] == [a];
    LoadWordsSnoc([a], b);
    assert [a] + [b] == [a, b];
  }

  /** Three lines contribute what each keeps, in order. */
  lemma LoadWordsThree(a: string, b: string, c: string)
    ensures LoadWords([a, b, c]) == Kept(a) + Kept(b) + Kept(c)
  {
    LoadWordsTwo(a, b);
    LoadWordsSnoc([a, b], c);
    assert [a, b] + [c] == [a, b, c];
  }

  /** `strip()` examples: a line terminator, a whitespace-only line and leading and trailing whitespace. */
  lemma StripAdmin()
    ensures Strip("admin\n") == "admin"
  {
    var line := "admin\n";
    assert !IsSpace(line[0]) && IsSpace(line[5]);
    assert Strip(line) == Strip(line[..5]);
    assert line[..5] == "admin";
    assert !IsSpace('a') && !IsSpace('n');
  }

  lemma StripBlank()
    ensures Strip("  \t\n") == []
  {
    var line := "  \t\n";
    assert IsSpace(' ') && IsSpace('\t') && IsSpace('\n');
    assert Strip(line) == Strip(line[1..]) && line[1..] == " \t\n";
    assert Strip(" \t\n") == Strip("\t\n") by { assert " \t\n"[1..] == "\t\n"; }
    assert Strip("\t\n") == Strip("\n") by { assert "\t\n"[1..] == "\n"; }
    assert Strip("\n") == Strip([]) by { assert "\n"[1..] == []; }
  }

  lemma StripLogin()
    ensures Strip(" login\t\n") == "login"
  {
    var line := " login\t\n";
    assert IsSpace(' ') && IsSpace('\t') && IsSpace('\n') && !IsSpace('l') && !IsSpace('n');
    assert Strip(line) == Strip(line[1..]) && line[1..] == "login\t\n";
    assert Strip("login\t\n") == Strip("login\t") by { assert "login\t\n"[..6] == "login\t"; }
    assert Strip("login\t") == Strip("login") by { assert "login\t"[..5] == "login"; }
  }
}
