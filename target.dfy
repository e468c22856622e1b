/**
 * Normalisation of the target given on the command line (the first statement
 * of the `DirBusterMini` constructor): a target that does not begin with
 * `http` gets `http://` put in front of it.
 */
module Target {
  import opened Text

  const DefaultScheme: string := "http://"

  /** A URL whose scheme is written out: it begins with `http://` or `https://`. */
  predicate HasScheme(url: string) {
    StartsWith(url, "http://") || StartsWith(url, "https://")
  }

  /**
   * The normalisation as the constructor writes it. The test is on the four
   * letters `http` only, so the target is kept exactly when it begins with
   * them, and is otherwise kept as the tail of the result.
   */
  function NormalizeTarget(target: string): (url: string)
    ensures StartsWith(url, "http")
    ensures url == target <==> StartsWith(target, "http")
    ensures !StartsWith(target, "http") ==> url == DefaultScheme + target
    ensures |target| <= |url| && url[|url| - |target|..] == target
  {
    if StartsWith(target, "http") then target else DefaultScheme + target
  }

  /** Normalising a normalised target changes nothing. */
  lemma NormalizeTargetIdempotent(target: string)
    ensures NormalizeTarget(NormalizeTarget(target)) == NormalizeTarget(target)
  {
  }

  /**
   * A host name that merely begins with the letters `http` is taken for a
   * URL: it is kept as it is and has no scheme.
   */
  lemma NormalizeTargetKeepsSchemelessHost()
    ensures NormalizeTarget("httpbin.org") == "httpbin.org"
    ensures !HasScheme(NormalizeTarget("httpbin.org"))
  {
    var t := "httpbin.org";
    assert t[4] == 'b';
    assert !StartsWith(t, "http://") by { assert "http://"[4] == ':'; }
    assert !StartsWith(t, "https://") by { assert "https://"[4] == 's'; }
  }

  /**
   * The normalisation the constructor evidently intends: a target with a
   * scheme is kept, any other target gets `http://` in front.
   */
  function NormalizeTargetWithScheme(target: string): (url: string)
    ensures HasScheme(url)
    ensures url == target <==> HasScheme(target)
    ensures !HasScheme(target) ==> url == DefaultScheme + target
    ensures |target| <= |url| && url[|url| - |target|..] == target
  {
    if HasScheme(target) then target else DefaultScheme + target
  }

  lemma NormalizeTargetWithSchemeIdempotent(target: string)
    ensures NormalizeTargetWithScheme(NormalizeTargetWithScheme(target)) == NormalizeTargetWithScheme(target)
  {
  }

  /**
   * The two normalisations part ways exactly on the targets that begin with
   * `http` but carry no scheme.
   */
  lemma NormalizationsDiffer(target: string)
    ensures NormalizeTargetWithScheme(target) != NormalizeTarget(target)
      <==> StartsWith(target, "http") && !HasScheme(target)
  {
    if HasScheme(target) {
      assert "http" <= "http://" && "http" <= "https://";
      assert StartsWith(target, "http") by {
        if StartsWith(target, "http://") {
          assert target[..4] == "http://"[..4];
        } else {
          assert target[..4] == "https://"[..4];
        }
      }
    }
  }
}
