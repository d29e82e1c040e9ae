/**
 * Filename bookkeeping: the check that a filename template has the expected
 * number of `%` conversions, and the derivation of an output file name.
 * The printf-style formatting itself is not modelled: formatted names are inputs.
 */
module Filenames {

  /** The number of '%' characters in s, every one counted (each of "%%" too). */
  function PercentCount(s: string): (n: nat)
    ensures n <= |s|
  {
    if s == [] then 0
    else PercentCount(s[..|s| - 1]) + (if s[|s| - 1] == '%' then 1 else 0)
  }

  /** The count is the multiplicity of '%' in the string, whatever the order of its characters. */
  lemma {:induction false} PercentCountIsMultiplicity(s: string)
    ensures PercentCount(s) == multiset(s)['%']
  {
    if s != [] {
      var init := s[..|s| - 1];
      PercentCountIsMultiplicity(init);
      assert s == init + [s[|s| - 1]];
      assert multiset(s) == multiset(init) + multiset{s[|s| - 1]};
    }
  }

  /** Counting distributes over concatenation. */
  lemma PercentCountAppend(s: string, t: string)
    ensures PercentCount(s + t) == PercentCount(s) + PercentCount(t)
  {
    PercentCountIsMultiplicity(s);
    PercentCountIsMultiplicity(t);
    PercentCountIsMultiplicity(s + t);
    assert multiset(s + t) == multiset(s) + multiset(t);
  }

  /** An escaped "%%" contributes two to the count, as two separate '%' characters. */
  lemma EscapedPercentCountsTwice(s: string, t: string)
    ensures PercentCount(s + "%%" + t) == PercentCount(s) + 2 + PercentCount(t)
  {
    PercentCountAppend(s + "%%", t);
    PercentCountAppend(s, "%%");
    assert PercentCount("%%") == 2 by {
      assert "%%"[..1] == "%";
      assert "%"[..0] == "";
    }
  }

  /** CheckTemplate: TRUE exactly when s holds nexpect '%' characters. */
  method CheckTemplate(s: string, nexpect: int) returns (ok: bool)
    ensures ok <==> PercentCount(s) == nexpect
  {
    var n := 0;
    var i := 0;
    while i < |s|
      invariant 0 <= i <= |s|
      invariant n == PercentCount(s[..i])
    {
      if s[i] == '%' {
        n := n + 1;
      }
      assert s[..i + 1][..i] == s[..i];
      i := i + 1;
    }
    assert s[..i] == s;
    ok := n == nexpect;
  }

  /** The suffix appended to a frame's name to name its equirectangular output. */
  const SphereSuffix: string := "_sphere.png"

  /**
   * s[..k] is what is left of s when it is cut at its last '.' among the
   * indices 1 and up; index 0 is never examined, and with no such '.' k is |s|.
   */
  predicate ExtensionCut(s: string, k: nat)
  {
    && k <= |s|
    && if k < |s| then 1 <= k && s[k] == '.' && forall m :: k < m < |s| ==> s[m] != '.'
       else forall m :: 1 <= m < |s| ==> s[m] != '.'
  }

  /** The cut point is determined by the string. */
  lemma ExtensionCutUnique(s: string, k1: nat, k2: nat)
    requires ExtensionCut(s, k1) && ExtensionCut(s, k2)
    ensures k1 == k2
  {
  }

  /**
   * create_output_filename. With a mask shorter than two characters the name
   * of the first frame (formattedBase, the base template formatted with track
   * 0 and the frame number) loses its extension and gains "_sphere.png";
   * otherwise the mask formatted with the frame number (formattedMask) is used.
   */
  method CreateOutputFilename(mask: string, formattedBase: string, formattedMask: string) returns (name: string)
    ensures |mask| >= 2 ==> name == formattedMask
    ensures |mask| < 2 ==> exists k: nat :: ExtensionCut(formattedBase, k) && name == formattedBase[..k] + SphereSuffix
  {
    if |mask| < 2 {
      var s := formattedBase;
      var k := |s|;
      var i := |s| - 1;
      while i > 0
        invariant -1 <= i < |s|
        invariant k == |s|
        invariant forall m :: i < m < |s| ==> s[m] != '.'
      {
        if s[i] == '.' {
          k := i;
          break;
        }
        i := i - 1;
      }
      assert ExtensionCut(s, k);
      name := s[..k] + SphereSuffix;
    } else {
      name := formattedMask;
    }
  }
}
