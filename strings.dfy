/** The PHP string builtins the file utility relies on, specialised to the one
    character it ever passes as the character list: the directory separator,
    fixed here to '/'. */
module Strings {

  /** DIRECTORY_SEPARATOR on the platforms this model covers. */
  const Sep: char := '/'

  /** A string with no separator at either end (the empty string included). */
  predicate Unframed(s: string) {
    s == [] || (s[0] != Sep && s[|s| - 1] != Sep)
  }

  /** `ltrim(s, "/")`: `s` without its leading separators. */
  function LTrim(s: string): (r: string)
    ensures |r| <= |s| && r == s[|s| - |r|..]
    ensures forall i :: 0 <= i < |s| - |r| ==> s[i] == Sep
    ensures r == [] || r[0] != Sep
  {
    if |s| > 0 && s[0] == Sep then LTrim(s[1..]) else s
  }

  /** `rtrim(s, "/")`: `s` without its trailing separators. */
  function RTrim(s: string): (r: string)
    ensures |r| <= |s| && r == s[..|r|]
    ensures forall i :: |r| <= i < |s| ==> s[i] == Sep
    ensures r == [] || r[|r| - 1] != Sep
  {
    if |s| > 0 && s[|s| - 1] == Sep then RTrim(s[..|s| - 1]) else s
  }

  /** A string made of separators only. */
  predicate AllSeps(s: string) {
    forall i :: 0 <= i < |s| ==> s[i] == Sep
  }

  /** `trim(s, "/")`: `s` without separators at either end. It leaves a string
      that already has no separator at its ends as it is. */
  function Trim(s: string): (r: string)
    ensures Unframed(r)
    ensures |r| <= |s|
    ensures Unframed(s) ==> r == s
  {
    TrimBothEnds(s);
    LTrim(RTrim(s))
  }

  /** `trim` gives the empty string exactly when `s` is made of separators
      only. */
  lemma TrimEmpty(s: string)
    ensures Trim(s) == [] <==> AllSeps(s)
  {
    TrimBothEnds(s);
  }

  /** What `Trim` and `TrimEmpty` promise, shown of the two steps. */
  lemma TrimBothEnds(s: string)
    ensures var r := LTrim(RTrim(s));
      && Unframed(r)
      && (r == [] <==> AllSeps(s))
      && (Unframed(s) ==> r == s)
  {
    var t := RTrim(s);
    var r := LTrim(t);
    assert r != [] ==> r[|r| - 1] == t[|t| - 1];
    if s != [] && s[|s| - 1] != Sep {
      assert t == s;
    }
    if r == [] {
      forall i | 0 <= i < |s| ensures s[i] == Sep {
        if i < |t| { assert t[i] == s[i]; }
      }
    }
  }

  /** `rtrim` removes exactly the separators appended after a string that
      does not end in one. */
  lemma {:induction false} RTrimDrops(s: string, trail: string)
    requires AllSeps(trail)
    requires s == [] || s[|s| - 1] != Sep
    ensures RTrim(s + trail) == s
    decreases |trail|
  {
    if trail == [] {
      assert s + trail == s;
    } else {
      var t := s + trail;
      assert t[|t| - 1] == trail[|trail| - 1];
      assert t[..|t| - 1] == s + trail[..|trail| - 1];
      RTrimDrops(s, trail[..|trail| - 1]);
    }
  }

  /** `ltrim` removes exactly the separators put before a string that does
      not start with one. */
  lemma {:induction false} LTrimDrops(lead: string, s: string)
    requires AllSeps(lead)
    requires s == [] || s[0] != Sep
    ensures LTrim(lead + s) == s
    decreases |lead|
  {
    if lead == [] {
      assert lead + s == s;
    } else {
      assert (lead + s)[1..] == lead[1..] + s;
      LTrimDrops(lead[1..], s);
    }
  }

  /** `trim` gives back the non-empty string between any runs of separators
      put around it. */
  lemma TrimStrips(lead: string, core: string, trail: string)
    requires AllSeps(lead) && AllSeps(trail)
    requires core != [] && Unframed(core)
    ensures Trim(lead + core + trail) == core
  {
    var lc := lead + core;
    assert lc[|lc| - 1] == core[|core| - 1];
    RTrimDrops(lc, trail);
    LTrimDrops(lead, core);
  }

  /** A single leading separator is trimmed away. */
  lemma TrimLeading(core: string)
    requires core != [] && Unframed(core)
    ensures Trim([Sep] + core) == core
  {
    TrimStrips([Sep], core, []);
    assert [Sep] + core + [] == [Sep] + core;
  }

  /** A single trailing separator is trimmed away. */
  lemma TrimTrailing(core: string)
    requires core != [] && Unframed(core)
    ensures Trim(core + [Sep]) == core
  {
    TrimStrips([], core, [Sep]);
    assert [] + core + [Sep] == core + [Sep];
  }
}
