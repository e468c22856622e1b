/**
 * Incremental path generation (`generate_incremental_paths`): every word of
 * the wordlist on its own, then, for a depth above 1, every pair
 * `word1/word2`, then, for a depth above 2, every triple `word1/word2/word3`,
 * always with the first word in the outermost loop. A word combines with
 * itself and with its own duplicates; nothing is filtered out.
 */
module Paths {

  /** `[f"{prefix}/{s}" for s in suffixes]`. */
  function Row(prefix: string, suffixes: seq<string>): (row: seq<string>)
    ensures |row| == |suffixes|
  {
    seq(|suffixes|, j requires 0 <= j < |suffixes| => prefix + "/" + suffixes[j])
  }

  /**
   * `[f"{p}/{s}" for p in prefixes for s in suffixes]`: one row per prefix, in
   * prefix order, so that there are |prefixes| * |suffixes| entries.
   */
  function Product(prefixes: seq<string>, suffixes: seq<string>): seq<string>
    decreases |prefixes|
  {
    if prefixes == [] then []
    else Product(prefixes[..|prefixes| - 1], suffixes) + Row(prefixes[|prefixes| - 1], suffixes)
  }

  lemma {:induction false} ProductLength(prefixes: seq<string>, suffixes: seq<string>)
    ensures |Product(prefixes, suffixes)| == |prefixes| * |suffixes|
    decreases |prefixes|
  {
    if prefixes != [] {
      var m := |prefixes| - 1;
      ProductLength(prefixes[..m], suffixes);
      assert (m + 1) * |suffixes| == m * |suffixes| + |suffixes|;
    }
  }

  /** Adding one prefix at the end adds its row at the end. */
  lemma ProductSnoc(prefixes: seq<string>, p: string, suffixes: seq<string>)
    ensures Product(prefixes + [p], suffixes) == Product(prefixes, suffixes) + Row(p, suffixes)
  {
    var next := prefixes + [p];
    assert next[..|next| - 1] == prefixes;
  }

  /** Taking one more prefix adds that prefix's row. */
  lemma ProductPrefixStep(prefixes: seq<string>, j: nat, suffixes: seq<string>)
    requires j < |prefixes|
    ensures Product(prefixes[..j + 1], suffixes) == Product(prefixes[..j], suffixes) + Row(prefixes[j], suffixes)
  {
    assert prefixes[..j + 1] == prefixes[..j] + [prefixes[j]];
    ProductSnoc(prefixes[..j], prefixes[j], suffixes);
  }

  /** The product of a concatenation of prefix lists is the concatenation of their products. */
  lemma {:induction false} ProductAppend(a: seq<string>, b: seq<string>, suffixes: seq<string>)
    ensures Product(a + b, suffixes) == Product(a, suffixes) + Product(b, suffixes)
    decreases |b|
  {
    if b == [] {
      assert a + b == a;
    } else {
      var m := |b| - 1;
      var front := a + b[..m];
      assert a + b == front + [b[m]];
      assert b == b[..m] + [b[m]];
      var left, middle, right := Product(a, suffixes), Product(b[..m], suffixes), Row(b[m], suffixes);
      ProductSnoc(front, b[m], suffixes);
      ProductAppend(a, b[..m], suffixes);
      assert Product(a + b, suffixes) == (left + middle) + right;
      ProductSnoc(b[..m], b[m], suffixes);
      assert Product(b, suffixes) == middle + right;
      assert (left + middle) + right == left + (middle + right);
    }
  }

  lemma MulStep(a: nat, m: nat, n: nat, b: nat)
    requires a < m && b < n
    ensures a * n + b < m * n
  {
    assert a * n + b < (a + 1) * n;
    assert (a + 1) * n <= m * n;
  }

  /** Entry `a * |suffixes| + b` of the product joins prefix `a` with suffix `b`. */
  lemma {:induction false} ProductAt(prefixes: seq<string>, suffixes: seq<string>, a: nat, b: nat)
    requires a < |prefixes| && b < |suffixes|
    ensures a * |suffixes| + b < |Product(prefixes, suffixes)|
    ensures Product(prefixes, suffixes)[a * |suffixes| + b] == prefixes[a] + "/" + suffixes[b]
    decreases |prefixes|
  {
    var m, n := |prefixes| - 1, |suffixes|;
    var front := prefixes[..m];
    ProductLength(front, suffixes);
    ProductLength(prefixes, suffixes);
    MulStep(a, m + 1, n, b);
    assert Product(prefixes, suffixes) == Product(front, suffixes) + Row(prefixes[m], suffixes);
    if a < m {
      ProductAt(front, suffixes, a, b);
      assert front[a] == prefixes[a];
      MulStep(a, m, n, b);
    }
  }

  /** Every entry of the product is some prefix joined with some suffix, and every such join is an entry. */
  lemma {:induction false} ProductMember(prefixes: seq<string>, suffixes: seq<string>, x: string)
    ensures x in Product(prefixes, suffixes) <==>
      exists a, b :: 0 <= a < |prefixes| && 0 <= b < |suffixes| && x == prefixes[a] + "/" + suffixes[b]
    decreases |prefixes|
  {
    if prefixes != [] {
      var m := |prefixes| - 1;
      var front, row := prefixes[..m], Row(prefixes[m], suffixes);
      ProductMember(front, suffixes, x);
      assert Product(prefixes, suffixes) == Product(front, suffixes) + row;
      if x in Product(front, suffixes) {
        var a, b :| 0 <= a < |front| && 0 <= b < |suffixes| && x == front[a] + "/" + suffixes[b];
        assert front[a] == prefixes[a];
      } else if x in row {
        var b :| 0 <= b < |suffixes| && row[b] == x;
        assert x == prefixes[m] + "/" + suffixes[b];
      }
      if exists a, b :: 0 <= a < |prefixes| && 0 <= b < |suffixes| && x == prefixes[a] + "/" + suffixes[b] {
        var a, b :| 0 <= a < |prefixes| && 0 <= b < |suffixes| && x == prefixes[a] + "/" + suffixes[b];
        if a < m {
          assert front[a] == prefixes[a];
        } else {
          assert row[b] == x;
        }
      }
    }
  }

  /** Every `word1/word2`, word1 outermost. */
  function Pairs(words: seq<string>): seq<string> {
    Product(words, words)
  }

  /** Every `word1/word2/word3`: each pair, in pair order, extended by every word. */
  function Triples(words: seq<string>): seq<string> {
    Product(Pairs(words), words)
  }

  /** The list `generate_incremental_paths` returns for a wordlist `words` and a combination depth. */
  function IncrementalPaths(words: seq<string>, depth: int): (paths: seq<string>)
    ensures |words| <= |paths| && paths[..|words|] == words
    ensures depth <= 1 ==> paths == words
  {
    words
    + (if depth > 1 then Pairs(words) else [])
    + (if depth > 2 then Triples(words) else [])
  }

  /** The triples whose first word is one of the first `i` words, in generation order. */
  ghost function TriplesUpTo(words: seq<string>, i: nat): seq<string>
    requires i <= |words|
  {
    if i == 0 then [] else TriplesUpTo(words, i - 1) + Product(Row(words[i - 1], words), words)
  }

  /** Running the first-word loop to the end yields all triples. */
  lemma {:induction false} TriplesUpToProduct(words: seq<string>, i: nat)
    requires i <= |words|
    ensures TriplesUpTo(words, i) == Product(Product(words[..i], words), words)
  {
    if i > 0 {
      TriplesUpToProduct(words, i - 1);
      ProductPrefixStep(words, i - 1, words);
      ProductAppend(Product(words[..i - 1], words), Row(words[i - 1], words), words);
    }
  }

  /** The innermost loop of both blocks: appends `f"{prefix}/{w}"` for every word `w`, in order. */
  method AppendRow(prefix: string, words: seq<string>, init: seq<string>) returns (paths: seq<string>)
    ensures paths == init + Row(prefix, words)
  {
    paths := init;
    for k := 0 to |words|
      invariant paths == init + Row(prefix, words)[..k]
    {
      paths := paths + [prefix + "/" + words[k]];
    }
    assert Row(prefix, words)[..|words|] == Row(prefix, words);
  }

  /** The `depth > 1` block: for each first word, append its row of `word1/word2` paths. */
  method AppendPairs(words: seq<string>, init: seq<string>) returns (paths: seq<string>)
    ensures paths == init + Pairs(words)
  {
    var n := |words|;
    paths := init;
    for i := 0 to n
      invariant paths == init + Product(words[..i], words)
    {
      paths := AppendRow(words[i], words, paths);
      ProductPrefixStep(words, i, words);
    }
    assert words[..n] == words;
  }

  /** The middle loop of the `depth > 2` block: for one first word, every `word1/word2/word3`. */
  method AppendTriplesOf(word1: string, words: seq<string>, init: seq<string>) returns (paths: seq<string>)
    ensures paths == init + Product(Row(word1, words), words)
  {
    ghost var row := Row(word1, words);
    paths := init;
    for j := 0 to |words|
      invariant paths == init + Product(row[..j], words)
    {
      paths := AppendRow(word1 + "/" + words[j], words, paths);
      ProductPrefixStep(row, j, words);
    }
    assert row[..|words|] == row;
  }

  /**
   * The `depth > 2` block: three nested loops over the words, the two inner
   * ones in `AppendTriplesOf` and `AppendRow`; `f"{word1}/{word2}/{word3}"` is
   * the pair `f"{word1}/{word2}"` joined with `word3`.
   */
  method AppendTriples(words: seq<string>, init: seq<string>) returns (paths: seq<string>)
    ensures paths == init + Triples(words)
  {
    var n := |words|;
    paths := init;
    for i := 0 to n
      invariant paths == init + TriplesUpTo(words, i)
    {
      paths := AppendTriplesOf(words[i], words, paths);
    }
    TriplesUpToProduct(words, n);
    assert words[..n] == words;
  }

  /**
   * `generate_incremental_paths` with the wordlist passed in: extend with the
   * words, then the pair block above depth 1 and the triple block above depth 2.
   */
  method GenerateIncrementalPaths(words: seq<string>, depth: int) returns (paths: seq<string>)
    ensures paths == IncrementalPaths(words, depth)
  {
    paths := [];
    paths := paths + words;
    if depth > 1 {
      paths := AppendPairs(words, paths);
    }
    if depth > 2 {
      paths := AppendTriples(words, paths);
    }
  }

  /** The output holds n words, plus n^2 pairs above depth 1, plus n^3 triples above depth 2. */
  lemma IncrementalPathsLength(words: seq<string>, depth: int)
    ensures var n := |words|;
      |IncrementalPaths(words, depth)| == n + (if depth > 1 then n * n else 0) + (if depth > 2 then n * n * n else 0)
  {
    ProductLength(words, words);
    ProductLength(Pairs(words), words);
  }

  /** The words come first, unchanged and in order; at depth 1 or below they are all there is. */
  lemma IncrementalPathsSingles(words: seq<string>, depth: int)
    ensures IncrementalPaths(words, depth)[..|words|] == words
    ensures depth <= 1 ==> IncrementalPaths(words, depth) == words
  {
  }

  /** Above depth 1, the list is the n words followed by the pairs and whatever comes after them. */
  lemma IncrementalPathsPairsTail(words: seq<string>, depth: int)
    requires depth > 1
    ensures IncrementalPaths(words, depth) == words + (Pairs(words) + (if depth > 2 then Triples(words) else []))
  {
  }

  lemma BeforeSuffix(front: seq<string>, back: seq<string>, q: nat)
    requires q < |front|
    ensures q < |front + back| && (front + back)[q] == front[q]
  {
  }

  /** Entry i*n + j of the pairs is `words[i]/words[j]`. */
  lemma PairsAt(words: seq<string>, i: nat, j: nat, index: nat)
    requires i < |words| && j < |words|
    requires index == i * |words| + j
    ensures index < |Pairs(words)|
    ensures Pairs(words)[index] == words[i] + "/" + words[j]
  {
    ProductAt(words, words, i, j);
  }

  /** Above depth 1, entry n + i*n + j is `words[i]/words[j]`, for every i and j including i == j. */
  lemma IncrementalPathsPairAt(words: seq<string>, depth: int, i: nat, j: nat, index: nat)
    requires depth > 1 && i < |words| && j < |words|
    requires index == |words| + i * |words| + j
    ensures index < |IncrementalPaths(words, depth)|
    ensures IncrementalPaths(words, depth)[index] == words[i] + "/" + words[j]
  {
    var q: nat := index - |words|;
    PairsAt(words, i, j, q);
    var rest := Pairs(words) + (if depth > 2 then Triples(words) else []);
    BeforeSuffix(Pairs(words), if depth > 2 then Triples(words) else [], q);
    IncrementalPathsPairsTail(words, depth);
    AfterPrefix(words, rest, q);
  }

  lemma AfterPrefix(front: seq<string>, back: seq<string>, q: nat)
    requires q < |back|
    ensures |front| + q < |front + back| && (front + back)[|front| + q] == back[q]
  {
  }

  /** Entry (i*n + j)*n + k of the triples is `words[i]/words[j]/words[k]`. */
  lemma TriplesAt(words: seq<string>, i: nat, j: nat, k: nat, index: nat)
    requires i < |words| && j < |words| && k < |words|
    requires index == (i * |words| + j) * |words| + k
    ensures index < |Triples(words)|
    ensures Triples(words)[index] == words[i] + "/" + words[j] + "/" + words[k]
  {
    var n := |words|;
    ProductLength(words, words);
    MulStep(i, n, n, j);
    ProductAt(words, words, i, j);
    ProductAt(Pairs(words), words, i * n + j, k);
  }

  /** Above depth 2, the list is the words and the pairs, n + n^2 entries, followed by the triples. */
  lemma IncrementalPathsTriplesTail(words: seq<string>, depth: int)
    requires depth > 2
    ensures var front := words + Pairs(words);
      |front| == |words| + |words| * |words| && IncrementalPaths(words, depth) == front + Triples(words)
  {
    ProductLength(words, words);
  }

  lemma TripleOffset(n: nat, i: nat, j: nat, k: nat, index: nat)
    requires index == n + n * n + (i * n + j) * n + k
    ensures n + n * n <= index && index - (n + n * n) == (i * n + j) * n + k
  {
  }

  /** Above depth 2, entry n + n^2 + (i*n + j)*n + k is `words[i]/words[j]/words[k]`. */
  lemma IncrementalPathsTripleAt(words: seq<string>, depth: int, i: nat, j: nat, k: nat, index: nat)
    requires depth > 2 && i < |words| && j < |words| && k < |words|
    requires index == |words| + |words| * |words| + (i * |words| + j) * |words| + k
    ensures index < |IncrementalPaths(words, depth)|
    ensures IncrementalPaths(words, depth)[index] == words[i] + "/" + words[j] + "/" + words[k]
  {
    TripleOffset(|words|, i, j, k, index);
    var q: nat := index - (|words| + |words| * |words|);
    TriplesAt(words, i, j, k, q);
    IncrementalPathsTriplesTail(words, depth);
    AfterPrefix(words + Pairs(words), Triples(words), q);
  }

  /** Depth is capped at 3: any larger depth produces the same list. */
  lemma IncrementalPathsDepthCap(words: seq<string>, depth: int)
    requires depth >= 3
    ensures IncrementalPaths(words, depth) == IncrementalPaths(words, 3)
  {
  }

  /** The two-word example: singles first, then the pairs with the first word outermost. */
  lemma IncrementalPathsExample()
    ensures IncrementalPaths(["admin", "login"], 2)
      == ["admin", "login", "admin/admin", "admin/login", "login/admin", "login/login"]
  {
    var w := ["admin", "login"];
    assert w[..1] == ["admin"] && w[..1][..0] == [];
    assert Row("admin", w) == ["admin/admin", "admin/login"] by {
      assert Row("admin", w)[0] == "admin/admin" && Row("admin", w)[1] == "admin/login";
    }
    assert Row("login", w) == ["login/admin", "login/login"] by {
      assert Row("login", w)[0] == "login/admin" && Row("login", w)[1] == "login/login";
    }
    assert Product(w[..1], w) == Row("admin", w);
    assert Pairs(w) == Row("admin", w) + Row("login", w);
  }
}
