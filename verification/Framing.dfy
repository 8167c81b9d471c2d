/** The greedy cut of an NMEA stream into contexts: each frame ends with the first LF behind the
    first $GPGGA. This is the reference for the in-place buffer of base/thread-gps.c. */
module Framing {

  /** "$GPGGA" starts at position i. */
  predicate TagAt(s: string, i: nat) {
    && i + 6 <= |s|
    && s[i] == '$' && s[i + 1] == 'G' && s[i + 2] == 'P'
    && s[i + 3] == 'G' && s[i + 4] == 'G' && s[i + 5] == 'A'
  }

  /** The first position from i on where $GPGGA starts, or |s|. */
  function FindTag(s: string, i: nat): (r: nat)
    requires i <= |s|
    ensures i <= r <= |s| && (r < |s| ==> TagAt(s, r))
    ensures forall k | i <= k < r :: !TagAt(s, k)
    decreases |s| - i
  {
    if i == |s| || TagAt(s, i) then i else FindTag(s, i + 1)
  }

  /** The first position from i on that holds c, or |s|. */
  function FindChar(s: string, c: char, i: nat): (r: nat)
    requires i <= |s|
    ensures i <= r <= |s| && (r < |s| ==> s[r] == c)
    ensures forall k | i <= k < r :: s[k] != c
    decreases |s| - i
  {
    if i == |s| || s[i] == c then i else FindChar(s, c, i + 1)
  }

  /** The length of the first frame of s, or 0 if no frame is complete. */
  function FrameEnd(s: string): (e: nat)
    ensures e <= |s|
  {
    var t := FindTag(s, 0);
    var lf := FindChar(s, '\n', t);
    if lf < |s| then lf + 1 else 0
  }

  function Split(s: string): (r: (seq<string>, string))
    decreases |s|
  {
    var e := FrameEnd(s);
    if e == 0 then ([], s) else
      var (frames, rest) := Split(s[e..]);
      ([s[..e]] + frames, rest)
  }

  function Concat(parts: seq<string>): string {
    if parts == [] then "" else parts[0] + Concat(parts[1..])
  }

  // ---------- what FrameEnd depends on ----------

  /** A complete first frame stays the first frame whatever follows it. */
  lemma FrameEndLocal(s: string, t: string)
    requires FrameEnd(s) > 0 && FrameEnd(s) <= |t| && t[..FrameEnd(s)] == s[..FrameEnd(s)]
    ensures FrameEnd(t) == FrameEnd(s)
  {
    var e, i, j := FrameEnd(s), FindTag(s, 0), FindTag(t, 0);
    forall k | 0 <= k < e ensures t[k] == s[k] {
      assert t[..e][k] == s[..e][k];
    }
    assert i + 6 <= e by {
      assert s[e - 1] == '\n';
    }
    assert TagAt(t, i);
    assert j == i by {
      assert j < i ==> TagAt(s, j);
    }
    assert FindChar(t, '\n', i) == e - 1;
  }

  // ---------- what a frame is, in the text itself ----------

  /** s reads "$GPGGA" from position k on. */
  ghost predicate ReadsTag(s: string, k: nat) {
    k + 6 <= |s| && s[k..k + 6] == "$GPGGA"
  }

  /** The first "$GPGGA" of s starts at i, and the first LF behind it is the last of the first e characters. */
  ghost predicate SentenceAt(s: string, i: nat, e: nat) {
    && i + 6 < e <= |s|
    && ReadsTag(s, i)
    && (forall k | 0 <= k < i :: !ReadsTag(s, k))
    && s[e - 1] == '\n' && '\n' !in s[i..e - 1]
  }

  lemma TagIs(s: string, k: nat)
    ensures TagAt(s, k) <==> ReadsTag(s, k)
  {
    if k + 6 <= |s| {
      var t := s[k..k + 6];
      assert forall j | 0 <= j < 6 :: t[j] == s[k + j];
    }
  }

  /** FrameEnd is the end of that sentence, and 0 when there is none. */
  lemma FrameEndIff(s: string, e: nat)
    ensures FrameEnd(s) == e && e > 0 <==> exists i: nat :: SentenceAt(s, i, e)
  {
    hide TagAt;
    if FrameEnd(s) == e && e > 0 {
      FrameIsSentence(s);
    }
    forall i: nat | SentenceAt(s, i, e) ensures FrameEnd(s) == e && e > 0 {
      SentenceIsFrame(s, i, e);
    }
  }

  lemma FrameIsSentence(s: string)
    requires FrameEnd(s) > 0
    ensures SentenceAt(s, FindTag(s, 0), FrameEnd(s))
  {
    var i, e := FindTag(s, 0), FrameEnd(s);
    TagIs(s, i);
    forall k | 0 <= k < i ensures !ReadsTag(s, k) {
      TagIs(s, k);
    }
    TagHasNoLf(s, i);
    At(s, i, e - 1);
  }

  lemma SentenceIsFrame(s: string, i: nat, e: nat)
    requires SentenceAt(s, i, e)
    ensures FrameEnd(s) == e
  {
    TagIs(s, i);
    TagIs(s, FindTag(s, 0));
    At(s, i, e - 1);
  }

  lemma At(s: string, i: nat, j: nat)
    requires i <= j <= |s|
    ensures |s[i..j]| == j - i && forall k | i <= k < j :: s[k] == s[i..j][k - i] && s[k] in s[i..j]
  {
  }

  lemma TagHasNoLf(s: string, i: nat)
    requires ReadsTag(s, i)
    ensures FindChar(s, '\n', i) >= i + 6
  {
    At(s, i, i + 6);
  }

  /** A whole string that is one sentence: it ends with the first LF behind its first "$GPGGA". */
  ghost predicate IsSentence(f: string) {
    exists i: nat :: SentenceAt(f, i, |f|)
  }

  lemma FrameIsOneSentence(f: string)
    ensures IsFrame(f) <==> IsSentence(f)
  {
    FrameEndIff(f, |f|);
    if IsSentence(f) {
      var i: nat :| SentenceAt(f, i, |f|);
    }
  }

  // ---------- Split is the only cut ----------

  predicate IsFrame(f: string) {
    f != "" && FrameEnd(f) == |f|
  }

  /** frames and rest are a cut of s into frames with no complete frame left. */
  predicate IsCut(s: string, frames: seq<string>, rest: string) {
    && s == Concat(frames) + rest
    && FrameEnd(rest) == 0
    && forall i | 0 <= i < |frames| :: IsFrame(frames[i])
  }

  lemma CutCons(f: string, s: string, frames: seq<string>, rest: string)
    requires IsFrame(f) && IsCut(s, frames, rest)
    ensures IsCut(f + s, [f] + frames, rest)
  {
    hide IsFrame, FrameEnd;
    assert ([f] + frames)[1..] == frames;
    assert f + (Concat(frames) + rest) == f + Concat(frames) + rest;
  }

  lemma {:induction false} SplitIsCut(s: string)
    ensures IsCut(s, Split(s).0, Split(s).1)
    decreases |s|
  {
    hide FrameEnd;
    var e := FrameEnd(s);
    if e > 0 {
      SplitIsCut(s[e..]);
      assert s[..e][..e] == s[..e];
      FrameEndLocal(s, s[..e]);
      CutCons(s[..e], s[e..], Split(s[e..]).0, Split(s[e..]).1);
      assert s == s[..e] + s[e..];
    }
  }

  lemma {:induction false} CutIsSplit(s: string, frames: seq<string>, rest: string)
    requires IsCut(s, frames, rest)
    ensures Split(s) == (frames, rest)
    decreases |frames|
  {
    hide FrameEnd;
    if frames == [] {
      assert s == rest;
    } else {
      var e := |frames[0]|;
      assert s == frames[0] + (Concat(frames[1..]) + rest);
      assert s[..e] == frames[0] && s[e..] == Concat(frames[1..]) + rest;
      FrameEndLocal(frames[0], s);
      CutIsSplit(s[e..], frames[1..], rest);
      assert frames == [frames[0]] + frames[1..];
    }
  }

  /** The cut into frames exists, is unique, and Split computes it. */
  lemma SplitIsTheOnlyCut(s: string, frames: seq<string>, rest: string)
    ensures IsCut(s, frames, rest) <==> Split(s) == (frames, rest)
  {
    SplitIsCut(s);
    if IsCut(s, frames, rest) {
      CutIsSplit(s, frames, rest);
    }
  }

  lemma {:induction false} ConcatAppend(a: seq<string>, b: seq<string>)
    ensures Concat(a + b) == Concat(a) + Concat(b)
    decreases |a|
  {
    if a == [] {
      assert a + b == b;
    } else {
      assert (a + b)[1..] == a[1..] + b;
      ConcatAppend(a[1..], b);
    }
  }

  /** Cutting early and going on with the rest gives the cut of the whole. */
  lemma SplitAppend(s: string, t: string)
    ensures var (frames, rest) := Split(s);
            Split(s + t) == (frames + Split(rest + t).0, Split(rest + t).1)
  {
    hide Split, IsCut;
    var (frames, rest) := Split(s);
    var (more, last) := Split(rest + t);
    SplitIsCut(s);
    SplitIsCut(rest + t);
    CutAppend(s, t, frames, rest, more, last);
    CutIsSplit(s + t, frames + more, last);
  }

  lemma CutAppend(s: string, t: string, frames: seq<string>, rest: string, more: seq<string>, last: string)
    requires IsCut(s, frames, rest) && IsCut(rest + t, more, last)
    ensures IsCut(s + t, frames + more, last)
  {
    hide IsFrame, FrameEnd;
    ConcatAppend(frames, more);
    assert s + t == Concat(frames) + (rest + t) == Concat(frames) + Concat(more) + last;
    forall i | 0 <= i < |frames + more| ensures IsFrame((frames + more)[i]) {
    }
  }
}
