/** `FileUtilityHelper::buildPath`: trim the separators off both ends of
    every segment, drop the segments left empty, and join the rest with one
    separator. */
module FileUtilityHelper {
  import opened Strings

  /** A segment as it is kept: not empty and with no separator at its ends. */
  predicate Kept(part: string) {
    part != [] && Unframed(part)
  }

  /** The trimmed, non-empty segments in their original order: what the loop
      of `buildPath` collects. */
  function KeptSegments(segments: seq<string>): (parts: seq<string>)
    ensures |parts| <= |segments|
  {
    if segments == [] then []
    else KeptSegments(segments[..|segments| - 1]) + KeptOf(segments[|segments| - 1])
  }

  /** What one segment contributes: its trimmed form, unless that is empty. */
  function KeptOf(segment: string): (parts: seq<string>)
    ensures |parts| <= 1
    ensures parts == [] <==> Trim(segment) == []
  {
    var t := Trim(segment);
    if t == [] then [] else [t]
  }

  /** Every part is as `Kept` says. */
  predicate AllKept(parts: seq<string>) {
    forall i :: 0 <= i < |parts| ==> Kept(parts[i])
  }

  /** Each of the collected segments is non-empty and has no separator at
      either end. */
  lemma {:induction false} KeptSegmentsAllKept(segments: seq<string>)
    ensures AllKept(KeptSegments(segments))
    decreases |segments|
  {
    if segments != [] {
      var front := segments[..|segments| - 1];
      KeptSegmentsAllKept(front);
      var k, t := KeptSegments(front), KeptOf(segments[|segments| - 1]);
      forall i | 0 <= i < |k + t| ensures Kept((k + t)[i]) {
        if i < |k| {
          assert (k + t)[i] == k[i];
        } else {
          assert (k + t)[i] == t[0];
        }
      }
    }
  }

  /** `implode("/", parts)`. */
  function Implode(parts: seq<string>): string {
    if |parts| == 0 then []
    else if |parts| == 1 then parts[0]
    else Implode(parts[..|parts| - 1]) + [Sep] + parts[|parts| - 1]
  }

  /** The normalized path of the segments. */
  function NormalizedPath(segments: seq<string>): string {
    Implode(KeptSegments(segments))
  }

  /** `buildPath(segments)`. */
  method BuildPath(segments: seq<string>) returns (path: string)
    ensures path == NormalizedPath(segments)
    ensures Unframed(path)
  {
    var filtered: seq<string> := [];
    for i := 0 to |segments|
      invariant filtered == KeptSegments(segments[..i])
    {
      var segment := Trim(segments[i]);
      if segment != [] {
        filtered := filtered + [segment];
      }
      KeptSegmentsPrefix(segments, i);
    }
    assert segments[..|segments|] == segments;
    path := Implode(filtered);
    NormalizedPathUnframed(segments);
  }

  /** Joining two paths with one separator, where an empty side adds nothing. */
  function Glue(left: string, right: string): string {
    if left == [] then right else if right == [] then left else left + [Sep] + right
  }

  /** Joining kept segments gives the empty string only for no segments, and
      never a separator at either end. */
  lemma {:induction false} ImplodeEnds(parts: seq<string>)
    requires AllKept(parts)
    ensures parts == [] <==> Implode(parts) == []
    ensures Unframed(Implode(parts))
  {
    if |parts| == 1 {
      assert Kept(parts[0]);
    } else if |parts| > 1 {
      var front := parts[..|parts| - 1];
      var last := parts[|parts| - 1];
      assert Kept(last);
      assert AllKept(front) by {
        forall i | 0 <= i < |front| ensures Kept(front[i]) {
          assert front[i] == parts[i];
        }
      }
      ImplodeEnds(front);
      var j := Implode(front) + [Sep] + last;
      assert j[0] == Implode(front)[0];
      assert j[|j| - 1] == last[|last| - 1];
    }
  }

  /** Joining one list after another joins their two joins with a separator. */
  lemma {:induction false} ImplodeAppend(xs: seq<string>, ys: seq<string>)
    requires xs != [] && ys != []
    ensures Implode(xs + ys) == Implode(xs) + [Sep] + Implode(ys)
    decreases |ys|
  {
    var zs := xs + ys;
    if |ys| == 1 {
      assert zs[..|zs| - 1] == xs;
    } else {
      var front := ys[..|ys| - 1];
      assert zs[..|zs| - 1] == xs + front;
      ImplodeAppend(xs, front);
    }
  }

  /** One more segment at the end adds what that segment contributes. */
  lemma KeptSegmentsSnoc(segments: seq<string>, segment: string)
    ensures KeptSegments(segments + [segment]) == KeptSegments(segments) + KeptOf(segment)
  {
    assert (segments + [segment])[..|segments|] == segments;
  }

  /** The segments collected from one more element of the list. */
  lemma KeptSegmentsPrefix(segments: seq<string>, i: nat)
    requires i < |segments|
    ensures KeptSegments(segments[..i + 1]) == KeptSegments(segments[..i]) + KeptOf(segments[i])
  {
    var p := segments[..i + 1];
    assert |p| == i + 1 && p[i] == segments[i];
    assert p[..i] == segments[..i];
  }

  /** A non-empty list is its front with its last element put back. */
  lemma SplitLast<T>(a: seq<T>, b: seq<T>)
    requires b != []
    ensures b == b[..|b| - 1] + [b[|b| - 1]]
    ensures a + b == (a + b[..|b| - 1]) + [b[|b| - 1]]
  {
  }

  /** Concatenation regroups freely (a calc step hint). */
  lemma ConcatAssoc<T>(x: seq<T>, y: seq<T>, z: seq<T>)
    ensures (x + y) + z == x + (y + z)
  {
  }

  /** The kept segments of two lists put together are those of each, in order. */
  lemma {:induction false} KeptSegmentsAppend(a: seq<string>, b: seq<string>)
    ensures KeptSegments(a + b) == KeptSegments(a) + KeptSegments(b)
    decreases |b|
  {
    if b == [] {
      assert a + b == a;
    } else {
      var front, last := b[..|b| - 1], b[|b| - 1];
      calc {
        KeptSegments(a + b);
        == { SplitLast(a, b); }
        KeptSegments((a + front) + [last]);
        == { KeptSegmentsSnoc(a + front, last); }
        KeptSegments(a + front) + KeptOf(last);
        == { KeptSegmentsAppend(a, front); }
        (KeptSegments(a) + KeptSegments(front)) + KeptOf(last);
        == { ConcatAssoc(KeptSegments(a), KeptSegments(front), KeptOf(last)); }
        KeptSegments(a) + (KeptSegments(front) + KeptOf(last));
      }
    }
  }

  /** The result never starts or ends with a separator; so a leading '/' on
      the first segment is not kept. */
  lemma NormalizedPathUnframed(segments: seq<string>)
    ensures Unframed(NormalizedPath(segments))
  {
    KeptSegmentsAllKept(segments);
    ImplodeEnds(KeptSegments(segments));
  }

  /** When no segment is kept, every segment trims to nothing. */
  lemma {:induction false} NoneKeptAllEmpty(segments: seq<string>)
    requires KeptSegments(segments) == []
    ensures forall i :: 0 <= i < |segments| ==> Trim(segments[i]) == []
    decreases |segments|
  {
    if segments != [] {
      var front := segments[..|segments| - 1];
      var last := segments[|segments| - 1];
      assert |front| == |segments| - 1;
      assert KeptSegments(front) == [] && KeptOf(last) == [];
      NoneKeptAllEmpty(front);
      forall i | 0 <= i < |segments| ensures Trim(segments[i]) == [] {
        if i < |front| {
          assert segments[i] == front[i];
        } else {
          assert i == |segments| - 1;
        }
      }
    }
  }

  /** When every segment trims to nothing, none is kept. */
  lemma {:induction false} AllEmptyNoneKept(segments: seq<string>)
    requires forall i :: 0 <= i < |segments| ==> Trim(segments[i]) == []
    ensures KeptSegments(segments) == []
    decreases |segments|
  {
    if segments != [] {
      var front := segments[..|segments| - 1];
      assert |front| == |segments| - 1;
      assert KeptOf(segments[|segments| - 1]) == [];
      forall i | 0 <= i < |front| ensures Trim(front[i]) == [] {
        assert front[i] == segments[i];
      }
      AllEmptyNoneKept(front);
    }
  }

  /** The result is empty exactly when every segment is empty or made only of
      separators (an empty list of segments included). */
  lemma NormalizedPathEmpty(segments: seq<string>)
    ensures NormalizedPath(segments) == [] <==> forall i :: 0 <= i < |segments| ==> Trim(segments[i]) == []
  {
    KeptSegmentsAllKept(segments);
    ImplodeEnds(KeptSegments(segments));
    if KeptSegments(segments) == [] {
      NoneKeptAllEmpty(segments);
    }
    if forall i :: 0 <= i < |segments| ==> Trim(segments[i]) == [] {
      AllEmptyNoneKept(segments);
    }
  }

  /** One segment comes out trimmed. */
  lemma NormalizedPathSingle(segment: string)
    ensures NormalizedPath([segment]) == Trim(segment)
  {
    assert [segment][..0] == [];
  }

  /** Building from two lists put together joins the paths built from each
      with one separator: the segments keep their order, and exactly one
      separator stands between neighbours. */
  lemma NormalizedPathAppend(a: seq<string>, b: seq<string>)
    ensures NormalizedPath(a + b) == Glue(NormalizedPath(a), NormalizedPath(b))
  {
    KeptSegmentsAppend(a, b);
    var ka, kb := KeptSegments(a), KeptSegments(b);
    KeptSegmentsAllKept(a);
    KeptSegmentsAllKept(b);
    ImplodeEnds(ka);
    ImplodeEnds(kb);
    if ka == [] {
      assert ka + kb == kb;
    } else if kb == [] {
      assert ka + kb == ka;
    } else {
      ImplodeAppend(ka, kb);
    }
  }

  /** A normalized path is built back into itself. */
  lemma NormalizedPathIdempotent(segments: seq<string>)
    ensures NormalizedPath([NormalizedPath(segments)]) == NormalizedPath(segments)
  {
    NormalizedPathUnframed(segments);
    NormalizedPathSingle(NormalizedPath(segments));
  }

  /** Two segments that both survive trimming come out joined by one
      separator. */
  lemma NormalizedPathPair(x: string, y: string)
    requires Trim(x) != [] && Trim(y) != []
    ensures NormalizedPath([x, y]) == Trim(x) + [Sep] + Trim(y)
  {
    calc {
      NormalizedPath([x, y]);
      == { assert [x, y] == [x] + [y]; }
      NormalizedPath([x] + [y]);
      == { NormalizedPathAppend([x], [y]); }
      Glue(NormalizedPath([x]), NormalizedPath([y]));
      == { NormalizedPathSingle(x); NormalizedPathSingle(y); }
      Glue(Trim(x), Trim(y));
    }
  }

  /** Three segments that all survive trimming come out joined in order. */
  lemma NormalizedPathTriple(x: string, y: string, z: string)
    requires Trim(x) != [] && Trim(y) != [] && Trim(z) != []
    ensures NormalizedPath([x, y, z]) == Trim(x) + [Sep] + Trim(y) + [Sep] + Trim(z)
  {
    calc {
      NormalizedPath([x, y, z]);
      == { assert [x, y, z] == [x, y] + [z]; }
      NormalizedPath([x, y] + [z]);
      == { NormalizedPathAppend([x, y], [z]); }
      Glue(NormalizedPath([x, y]), NormalizedPath([z]));
      == { NormalizedPathPair(x, y); NormalizedPathSingle(z); }
      Glue(Trim(x) + [Sep] + Trim(y), Trim(z));
    }
  }

  /** A segment made only of separators (the empty one included) contributes
      nothing, wherever it stands. */
  lemma NormalizedPathSkipsSeparators(before: seq<string>, segment: string, after: seq<string>)
    requires AllSeps(segment)
    ensures NormalizedPath(before + [segment] + after) == NormalizedPath(before + after)
  {
    calc {
      KeptSegments(before + [segment] + after);
      == { KeptSegmentsAppend(before + [segment], after); }
      KeptSegments(before + [segment]) + KeptSegments(after);
      == { KeptSegmentsSnoc(before, segment); TrimEmpty(segment); assert KeptOf(segment) == []; }
      (KeptSegments(before) + []) + KeptSegments(after);
      == { assert KeptSegments(before) + [] == KeptSegments(before); }
      KeptSegments(before) + KeptSegments(after);
      == { KeptSegmentsAppend(before, after); }
      KeptSegments(before + after);
    }
  }

  /** `buildPath(["a/", "/b/", "c"])` is "a/b/c", and so for any names in
      place of "a", "b" and "c": the separators at the joints are not
      doubled. */
  lemma NormalizedPathExample(a: string, b: string, c: string)
    requires Kept(a) && Kept(b) && Kept(c)
    ensures NormalizedPath([a + [Sep], [Sep] + b + [Sep], c]) == a + [Sep] + b + [Sep] + c
  {
    TrimTrailing(a);
    TrimStrips([Sep], b, [Sep]);
    NormalizedPathTriple(a + [Sep], [Sep] + b + [Sep], c);
  }

  /** The leading separator of the first segment is dropped too, so the
      result is relative: "/var" and "log/" give "var/log". */
  lemma NormalizedPathDropsLeadingSeparator(a: string, b: string)
    requires Kept(a) && Kept(b)
    ensures NormalizedPath([[Sep] + a, b + [Sep]]) == a + [Sep] + b
  {
    TrimLeading(a);
    TrimTrailing(b);
    NormalizedPathPair([Sep] + a, b + [Sep]);
  }
}
