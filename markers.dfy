/** The product-reference marker `[PRODUCT:<id>]` and the split that `renderMessageText` performs with
    the pattern `/(\[PRODUCT:[^\]]+\])/` (components/ChatInterface.tsx). The pattern is matched with the
    leftmost-first semantics of a regular-expression engine: the scan tries each position from left to
    right, and at a position where `[PRODUCT:` starts, the greedy `[^\]]+` runs to the first `]`. */
module Markers {
  import opened Types
  import opened Text

  const Open: string := "[PRODUCT:"

  /** `m` is exactly one marker: `[PRODUCT:`, a non-empty id without `]`, then `]`. */
  predicate IsMarker(m: string) {
    |m| >= |Open| + 2 && m[..|Open|] == Open && m[|m| - 1] == ']' && ']' !in m[|Open|..|m| - 1]
  }

  /** The marker that names `id`. */
  function MarkerOf(id: string): string {
    Open + id + "]"
  }

  /** The id a marker carries (the pattern's inner capture group). */
  function MarkerId(m: string): string
    requires IsMarker(m)
  {
    m[|Open|..|m| - 1]
  }

  /** Every id that is non-empty and free of `]` has a marker, and the marker gives it back. */
  lemma MarkerOfId(id: string)
    requires id != [] && ']' !in id
    ensures IsMarker(MarkerOf(id)) && MarkerId(MarkerOf(id)) == id
  {
    var m := MarkerOf(id);
    assert m[..|Open|] == Open;
    assert m[|Open|..|m| - 1] == id;
  }

  /** Conversely, every marker is the marker of its id. */
  lemma IdOfMarker(m: string)
    requires IsMarker(m)
    ensures MarkerId(m) != [] && ']' !in MarkerId(m) && MarkerOf(MarkerId(m)) == m
  {
    assert m == m[..|Open|] + m[|Open|..|m| - 1] + [m[|m| - 1]];
  }

  /** No substring of `s` is a marker. */
  ghost predicate MarkerFree(s: string) {
    forall a, b :: 0 <= a <= b <= |s| ==> !IsMarker(s[a..b])
  }

  /** The first `]` at or after position `k`, or `|s|` when there is none. */
  function CloseFrom(s: string, k: nat): (j: nat)
    requires k <= |s|
    ensures k <= j <= |s|
    ensures j < |s| ==> s[j] == ']'
    ensures ']' !in s[k..j]
    decreases |s| - k
  {
    if k == |s| || s[k] == ']' then k
    else
      var j := CloseFrom(s, k + 1);
      assert s[k..j] == [s[k]] + s[k + 1..j];
      j
  }

  /** The end of the marker the pattern matches at position `i`, if it matches there. */
  function MatchAt(s: string, i: nat): (r: Option<nat>)
    requires i <= |s|
    ensures r.Some? ==> i < r.value <= |s| && IsMarker(s[i..r.value])
  {
    var body := i + |Open|;
    if body <= |s| && s[i..body] == Open then
      var j := CloseFrom(s, body);
      if body < j < |s| then
        assert s[i..j + 1][..|Open|] == s[i..body];
        assert s[i..j + 1][|Open|..j - i] == s[body..j];
        Some(j + 1)
      else None
    else None
  }

  /** The pattern matches at `i` whenever a marker starts there, and then it matches exactly that marker:
      a marker cannot be extended or cut short, because its id stops at the first `]`. */
  lemma MatchAtComplete(s: string, i: nat, e: nat)
    requires i <= e <= |s| && IsMarker(s[i..e])
    ensures MatchAt(s, i) == Some(e)
  {
    var m := s[i..e];
    var body := i + |Open|;
    assert s[i..body] == m[..|Open|];
    var j := CloseFrom(s, body);
    assert s[e - 1] == m[|m| - 1];
    assert s[body..e - 1] == m[|Open|..|m| - 1];
    CloseFromFirst(s, body, e - 1);
  }

  /** `CloseFrom` stops at the first `]`. */
  lemma {:induction false} CloseFromFirst(s: string, k: nat, c: nat)
    requires k <= c < |s| && s[c] == ']' && ']' !in s[k..c]
    ensures CloseFrom(s, k) == c
    decreases c - k
  {
    if k < c {
      assert s[k] == s[k..c][0];
      assert s[k + 1..c] == s[k..c][1..];
      CloseFromFirst(s, k + 1, c);
    }
  }

  /** Where the marker occupies `s[start..end]`. */
  datatype Span = Span(start: nat, end: nat)

  /** The leftmost match of the pattern at or after `from`. */
  function FindFrom(s: string, from: nat): (r: Option<Span>)
    requires from <= |s|
    ensures r.Some? ==> from <= r.value.start < r.value.end <= |s| && MatchAt(s, r.value.start) == Some(r.value.end)
    decreases |s| - from
  {
    match MatchAt(s, from)
    case Some(e) => Some(Span(from, e))
    case None => if from == |s| then None else FindFrom(s, from + 1)
  }

  /** The match found is the leftmost one: the pattern matches nowhere before it, and when nothing is
      found it matches nowhere at all. */
  lemma {:induction false} FindFromLeftmost(s: string, from: nat)
    requires from <= |s|
    ensures FindFrom(s, from).Some? ==>
      forall k :: from <= k < FindFrom(s, from).value.start ==> MatchAt(s, k).None?
    ensures FindFrom(s, from).None? ==> forall k :: from <= k <= |s| ==> MatchAt(s, k).None?
    decreases |s| - from
  {
    if MatchAt(s, from).None? && from < |s| {
      FindFromLeftmost(s, from + 1);
    }
  }

  /** Positions where the pattern does not match hold no marker. */
  lemma NoMatchNoMarker(s: string, lo: nat, hi: nat)
    requires lo <= hi <= |s|
    requires forall k :: lo <= k < hi ==> MatchAt(s, k).None?
    ensures MarkerFree(s[lo..hi])
  {
    var p := s[lo..hi];
    forall a, b | 0 <= a <= b <= |p| ensures !IsMarker(p[a..b]) {
      forall t | 0 <= t < b - a ensures p[a..b][t] == s[lo + a..lo + b][t] {
        assert p[a..b][t] == p[a + t] == s[lo + a + t];
      }
      assert p[a..b] == s[lo + a..lo + b];
      if IsMarker(s[lo + a..lo + b]) {
        MatchAtComplete(s, lo + a, lo + b);
      }
    }
  }

  /** `text.split(/(\[PRODUCT:[^\]]+\])/)`: the text around each match, with the match itself kept
      in between because the pattern is one capturing group. */
  function Split(s: string): (parts: seq<string>)
    ensures |parts| % 2 == 1
    decreases |s|
  {
    match FindFrom(s, 0)
    case None => [s]
    case Some(span) => [s[..span.start], s[span.start..span.end]] + Split(s[span.end..])
  }

  /** Plain text and markers alternate: even positions are marker-free text, odd positions are markers. */
  ghost predicate Alternating(parts: seq<string>) {
    |parts| % 2 == 1
    && forall k :: 0 <= k < |parts| ==> if k % 2 == 0 then MarkerFree(parts[k]) else IsMarker(parts[k])
  }

  /** Splitting loses nothing: the parts concatenate back to the text. */
  lemma {:induction false} SplitLossless(s: string)
    ensures Concat(Split(s)) == s
    decreases |s|
  {
    match FindFrom(s, 0)
    case None =>
    case Some(span) =>
      SplitLossless(s[span.end..]);
      ConcatPair(s[..span.start], s[span.start..span.end], Split(s[span.end..]));
      ThreeSlices(s, span.start, span.end);
  }

  lemma ThreeSlices(s: string, i: nat, j: nat)
    requires i <= j <= |s|
    ensures s[..i] + s[i..j] + s[j..] == s
  {
    assert s[..j] == s[..i] + s[i..j];
  }

  lemma ConcatPair(text: string, marker: string, rest: seq<string>)
    ensures Concat([text, marker] + rest) == text + marker + Concat(rest)
  {
    var parts := [text, marker] + rest;
    assert parts[1..] == [marker] + rest;
    assert parts[1..][1..] == rest;
  }

  /** The parts alternate between marker-free text and single markers. */
  lemma {:induction false} SplitAlternates(s: string)
    ensures Alternating(Split(s))
    decreases |s|
  {
    FindFromLeftmost(s, 0);
    match FindFrom(s, 0)
    case None =>
      NoMatchNoMarker(s, 0, |s|);
      assert s[0..|s|] == s;
    case Some(span) =>
      SplitAlternates(s[span.end..]);
      NoMatchNoMarker(s, 0, span.start);
      assert s[0..span.start] == s[..span.start];
      AlternatingCons(s[..span.start], s[span.start..span.end], Split(s[span.end..]));
  }

  lemma AlternatingCons(text: string, marker: string, rest: seq<string>)
    requires MarkerFree(text) && IsMarker(marker) && Alternating(rest)
    ensures Alternating([text, marker] + rest)
  {
    var parts := [text, marker] + rest;
    forall k | 2 <= k < |parts|
      ensures if k % 2 == 0 then MarkerFree(parts[k]) else IsMarker(parts[k])
    {
      assert parts[k] == rest[k - 2];
    }
  }

  /** `[PRODUCT:` starts at position `k` of `s`. */
  predicate OpensAt(s: string, k: nat) {
    k + |Open| <= |s| && s[k..k + |Open|] == Open
  }

  /** `s` contains `[PRODUCT:` somewhere. */
  predicate ContainsOpen(s: string) {
    exists k :: 0 <= k <= |s| && OpensAt(s, k)
  }

  /** Text without `[PRODUCT:` comes back as one part, itself. */
  lemma SplitWithoutOpen(s: string)
    requires !ContainsOpen(s)
    ensures Split(s) == [s]
  {
    forall k | 0 <= k <= |s| ensures MatchAt(s, k).None? {
      assert !OpensAt(s, k);
    }
    FindFromNone(s, 0);
  }

  /** Text that is one marker splits into that marker with empty text on both sides. */
  lemma SplitMarker(m: string)
    requires IsMarker(m)
    ensures Split(m) == ["", m, ""]
  {
    assert m[0..|m|] == m;
    MatchAtComplete(m, 0, |m|);
    assert FindFrom(m, 0) == Some(Span(0, |m|));
    assert m[..0] == "" && m[|m|..] == "";
    assert FindFrom("", 0) == None;
    assert Split("") == [""];
  }

  /** `[PRODUCT:]` names no id, so it is no marker and stays inside the plain text. */
  lemma EmptyIdIsNoMarker()
    ensures !IsMarker("[PRODUCT:]")
    ensures Split("[PRODUCT:]") == ["[PRODUCT:]"]
  {
    var s := "[PRODUCT:]";
    assert CloseFrom(s, |Open|) == |Open|;
    forall k | 0 <= k <= |s| ensures MatchAt(s, k).None? {
      if 0 < k && k + |Open| <= |s| {
        assert s[k..k + |Open|][0] == s[k];
      }
    }
    FindFromNone(s, 0);
  }

  /** A stray `[PRODUCT:` swallows the marker after it: the leftmost match starts at the stray
      opening and its id runs up to the first `]`. */
  lemma StrayOpenSwallowsMarker()
    ensures Split("[PRODUCT:a[PRODUCT:b]") == ["", "[PRODUCT:a[PRODUCT:b]", ""]
  {
    var s := "[PRODUCT:a[PRODUCT:b]";
    assert s[..|Open|] == Open;
    assert s[|Open|..|s| - 1] == "a[PRODUCT:b";
    assert ']' !in "a[PRODUCT:b";
    SplitMarker(s);
  }

  /** When the pattern matches nowhere from `from` on, nothing is found. */
  lemma {:induction false} FindFromNone(s: string, from: nat)
    requires from <= |s|
    requires forall k :: from <= k <= |s| ==> MatchAt(s, k).None?
    ensures FindFrom(s, from) == None
    decreases |s| - from
  {
    if from < |s| {
      FindFromNone(s, from + 1);
    }
  }

  /** No `[` in `s` is directly followed by `P`, which every `[PRODUCT:` needs. */
  predicate NoBracketP(s: string)
    decreases |s|
  {
    |s| < 2 || (!(s[0] == '[' && s[1] == 'P') && NoBracketP(s[1..]))
  }

  lemma {:induction false} NoBracketPNoOpen(s: string)
    requires NoBracketP(s)
    ensures !ContainsOpen(s)
    decreases |s|
  {
    if |s| >= 2 {
      NoBracketPNoOpen(s[1..]);
      forall k | 0 <= k <= |s| ensures !OpensAt(s, k) {
        if k + |Open| <= |s| {
          if k == 0 {
            assert s[..|Open|][0] == s[0] && s[..|Open|][1] == s[1];
          } else {
            assert s[k..k + |Open|] == s[1..][k - 1..k - 1 + |Open|];
            assert !OpensAt(s[1..], k - 1);
          }
        }
      }
    }
  }

  /** Text without `[` has no `[P`. */
  lemma {:induction false} NoBracketNoBracketP(s: string)
    requires '[' !in s
    ensures NoBracketP(s)
    decreases |s|
  {
    if |s| >= 2 {
      assert s[0] in s;
      assert forall c :: c in s[1..] ==> c in s;
      NoBracketNoBracketP(s[1..]);
    }
  }

  /** Two pieces without `[P` join without one when the second does not start with `P`. */
  lemma {:induction false} NoBracketPConcat(a: string, b: string)
    requires NoBracketP(a) && NoBracketP(b)
    requires b != [] ==> b[0] != 'P'
    ensures NoBracketP(a + b)
    decreases |a|
  {
    if a == [] {
      assert a + b == b;
    } else {
      if |a| >= 2 {
        NoBracketPConcat(a[1..], b);
      }
      assert (a + b)[1..] == a[1..] + b;
    }
  }
}
