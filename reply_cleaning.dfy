/**
 * The reply-cleaning expression of src/app/api/analyze/route.ts:
 * `responseText.replace(/```json|```/g, "").trim()`.
 *
 * The global replace scans left to right; at each position it tries the
 * alternative "```json" before "```", removes the first one that matches and
 * resumes after it, and otherwise keeps the character and moves on.
 * `trim` removes ECMAScript white space and line terminators at both ends.
 */
module ReplyCleaning {

  const JsonFence: string := "```json"
  const Fence: string := "```"

  predicate StartsWith(s: string, prefix: string)
  {
    |prefix| <= |s| && s[..|prefix|] == prefix
  }

  /** The global, leftmost, non-overlapping removal of "```json" and "```". */
  function StripFences(s: string): string
  {
    if StartsWith(s, JsonFence) then StripFences(s[|JsonFence|..])
    else if StartsWith(s, Fence) then StripFences(s[|Fence|..])
    else if |s| == 0 then ""
    else [s[0]] + StripFences(s[1..])
  }

  /** Three backticks start at position `i` of `s`. */
  predicate FenceAt(s: string, i: int)
  {
    0 <= i && i + 3 <= |s| && s[i] == '`' && s[i + 1] == '`' && s[i + 2] == '`'
  }

  predicate FenceFree(s: string)
  {
    forall i :: 0 <= i < |s| ==> !FenceAt(s, i)
  }

  /** `a` can be obtained from `b` by deleting characters. */
  predicate IsSubsequence(a: string, b: string)
  {
    |a| == 0 || (|b| > 0 && ((a[0] == b[0] && IsSubsequence(a[1..], b[1..])) || IsSubsequence(a, b[1..])))
  }

  /** The characters of the two fence patterns. */
  predicate IsFenceChar(c: char)
  {
    c == '`' || c == 'j' || c == 's' || c == 'o' || c == 'n'
  }

  /** `s` with every fence character dropped. */
  function NonFenceChars(s: string): string
  {
    if |s| == 0 then "" else (if IsFenceChar(s[0]) then "" else [s[0]]) + NonFenceChars(s[1..])
  }

  // ---------------------------------------------------------------------
  // ECMAScript trim

  /** ECMAScript WhiteSpace (including every Zs code point) and LineTerminator. */
  predicate IsJsWhitespace(c: char)
  {
    var u := c as int;
    u == 0x09 || u == 0x0B || u == 0x0C || u == 0x20 || u == 0xA0 || u == 0xFEFF
    || u == 0x1680 || (0x2000 <= u <= 0x200A) || u == 0x202F || u == 0x205F || u == 0x3000
    || u == 0x0A || u == 0x0D || u == 0x2028 || u == 0x2029
  }

  /** Leading white space removed: what is left is a suffix starting with a non-space. */
  function TrimStart(s: string): (r: string)
    ensures |r| <= |s| && r == s[|s| - |r|..]
    ensures forall k :: 0 <= k < |s| - |r| ==> IsJsWhitespace(s[k])
    ensures |r| > 0 ==> !IsJsWhitespace(r[0])
  {
    if |s| > 0 && IsJsWhitespace(s[0]) then TrimStart(s[1..]) else s
  }

  /** Trailing white space removed: what is left is a prefix ending with a non-space. */
  function TrimEnd(s: string): (r: string)
    ensures |r| <= |s| && r == s[..|r|]
    ensures forall k :: |r| <= k < |s| ==> IsJsWhitespace(s[k])
    ensures |r| > 0 ==> !IsJsWhitespace(r[|r| - 1])
  {
    if |s| > 0 && IsJsWhitespace(s[|s| - 1]) then TrimEnd(s[..|s| - 1]) else s
  }

  /** `String.prototype.trim`. */
  function Trim(s: string): string
  {
    TrimEnd(TrimStart(s))
  }

  /** The cleaned reply that is handed to the JSON parser. */
  function Clean(reply: string): string
  {
    Trim(StripFences(reply))
  }

  // ---------------------------------------------------------------------
  // Trim

  /** The trimmed string neither starts nor ends with white space. */
  lemma TrimEnds(s: string)
    ensures |Trim(s)| > 0 ==> !IsJsWhitespace(Trim(s)[0]) && !IsJsWhitespace(Trim(s)[|Trim(s)| - 1])
  {
    var t := TrimStart(s);
    var r := TrimEnd(t);
    if |r| > 0 {
      assert r[0] == t[0];
    }
  }

  /** Where the trimmed piece starts in the input. */
  function TrimOffset(s: string): nat
  {
    |s| - |TrimStart(s)|
  }

  /** Trim keeps one contiguous piece of its input... */
  lemma TrimPiece(s: string)
    ensures TrimOffset(s) + |Trim(s)| <= |s|
    ensures Trim(s) == s[TrimOffset(s)..TrimOffset(s) + |Trim(s)|]
  {
    var t := TrimStart(s);
    var r := TrimEnd(t);
    var i := |s| - |t|;
    assert t == s[i..];
    assert r == t[..|r|];
  }

  /** ...and everything before and after that piece is white space. */
  lemma TrimOutside(s: string)
    ensures forall k :: 0 <= k < TrimOffset(s) ==> IsJsWhitespace(s[k])
    ensures forall k :: TrimOffset(s) + |Trim(s)| <= k < |s| ==> IsJsWhitespace(s[k])
  {
    var t := TrimStart(s);
    var r := TrimEnd(t);
    var i := |s| - |t|;
    forall k | i + |r| <= k < |s|
      ensures IsJsWhitespace(s[k])
    {
      assert t == s[i..];
      assert s[k] == t[k - i];
    }
  }

  /** A string already without surrounding white space is left alone by trim. */
  lemma TrimUnchanged(s: string)
    requires |s| > 0 ==> !IsJsWhitespace(s[0]) && !IsJsWhitespace(s[|s| - 1])
    ensures Trim(s) == s
  {
    assert TrimStart(s) == s;
  }

  /** Trimming twice is trimming once. */
  lemma TrimIdempotent(s: string)
    ensures Trim(Trim(s)) == Trim(s)
  {
    TrimEnds(s);
    TrimUnchanged(Trim(s));
  }

  // ---------------------------------------------------------------------
  // Fence stripping

  /** The output of the replace keeps the relative order of what it keeps. */
  lemma {:induction false} SubsequenceDropPrefix(a: string, b: string, k: nat)
    requires k <= |b| && IsSubsequence(a, b[k..])
    ensures IsSubsequence(a, b)
  {
    if k > 0 {
      assert b[1..][k - 1..] == b[k..];
      SubsequenceDropPrefix(a, b[1..], k - 1);
    }
  }

  lemma {:induction false} StripFencesIsSubsequence(s: string)
    ensures IsSubsequence(StripFences(s), s)
    decreases |s|
  {
    if StartsWith(s, JsonFence) {
      StripFencesIsSubsequence(s[7..]);
      SubsequenceDropPrefix(StripFences(s), s, 7);
    } else if StartsWith(s, Fence) {
      StripFencesIsSubsequence(s[3..]);
      SubsequenceDropPrefix(StripFences(s), s, 3);
    } else if |s| > 0 {
      StripFencesIsSubsequence(s[1..]);
    }
  }

  lemma {:induction false} NonFenceCharsOfFencePrefix(s: string, k: nat)
    requires k <= |s| && forall i :: 0 <= i < k ==> IsFenceChar(s[i])
    ensures NonFenceChars(s) == NonFenceChars(s[k..])
  {
    if k > 0 {
      assert s[1..][k - 1..] == s[k..];
      NonFenceCharsOfFencePrefix(s[1..], k - 1);
    }
  }

  /** Every character other than a backtick or a letter of "json" survives, in order. */
  lemma {:induction false} StripFencesKeepsOtherChars(s: string)
    ensures NonFenceChars(StripFences(s)) == NonFenceChars(s)
    decreases |s|
  {
    if StartsWith(s, JsonFence) {
      StripFencesKeepsOtherChars(s[7..]);
      assert forall i :: 0 <= i < 7 ==> s[i] == JsonFence[i];
      NonFenceCharsOfFencePrefix(s, 7);
    } else if StartsWith(s, Fence) {
      StripFencesKeepsOtherChars(s[3..]);
      assert forall i :: 0 <= i < 3 ==> s[i] == Fence[i];
      NonFenceCharsOfFencePrefix(s, 3);
    } else if |s| > 0 {
      StripFencesKeepsOtherChars(s[1..]);
      assert ([s[0]] + StripFences(s[1..]))[1..] == StripFences(s[1..]);
    }
  }

  /** A backtick at the front of the output was at the front of the input. */
  lemma FirstBacktick(t: string)
    requires |StripFences(t)| > 0 && StripFences(t)[0] == '`'
    ensures |t| > 0 && t[0] == '`'
  {
    if !StartsWith(t, JsonFence) && !StartsWith(t, Fence) && |t| > 0 {
      assert StripFences(t)[0] == t[0];
    }
  }

  /** Two backticks at the front of the output were at the front of the input. */
  lemma LeadingBackticks(t: string)
    requires |StripFences(t)| >= 2 && StripFences(t)[0] == '`' && StripFences(t)[1] == '`'
    ensures |t| >= 2 && t[0] == '`' && t[1] == '`'
  {
    if StartsWith(t, JsonFence) {
      assert t[..7][1] == '`';
    } else if StartsWith(t, Fence) {
      assert t[..3][1] == '`';
    } else {
      FirstBacktick(t);
      var rest := StripFences(t[1..]);
      assert StripFences(t) == [t[0]] + rest;
      assert rest[0] == '`';
      FirstBacktick(t[1..]);
    }
  }

  /**
   * The replace never leaves three backticks in a row: a backtick kept just
   * before a removed fence would itself have started a match.
   */
  lemma {:induction false} StripFencesLeavesNoFence(s: string)
    ensures FenceFree(StripFences(s))
    decreases |s|
  {
    if StartsWith(s, JsonFence) {
      StripFencesLeavesNoFence(s[7..]);
    } else if StartsWith(s, Fence) {
      StripFencesLeavesNoFence(s[3..]);
    } else if |s| > 0 {
      var rest := StripFences(s[1..]);
      var r := StripFences(s);
      assert r == [s[0]] + rest;
      StripFencesLeavesNoFence(s[1..]);
      forall i | 0 <= i < |r| ensures !FenceAt(r, i) {
        if i == 0 {
          if FenceAt(r, 0) {
            LeadingBackticks(s[1..]);
            assert false;
          }
        } else {
          assert FenceAt(r, i) ==> FenceAt(rest, i - 1);
        }
      }
    }
  }

  /** Input without three backticks in a row passes the replace unchanged. */
  lemma {:induction false} StripFencesUnchanged(s: string)
    requires FenceFree(s)
    ensures StripFences(s) == s
    decreases |s|
  {
    if |s| > 0 {
      assert !FenceAt(s, 0);
      assert !StartsWith(s, Fence);
      assert !StartsWith(s, JsonFence);
      assert FenceFree(s[1..]) by {
        forall i | 0 <= i < |s| - 1 ensures !FenceAt(s[1..], i) {
          assert !FenceAt(s, i + 1);
        }
      }
      StripFencesUnchanged(s[1..]);
    }
  }

  /** A piece of a string without a fence has no fence either. */
  lemma FenceFreeSlice(s: string, i: nat, j: nat)
    requires i <= j <= |s| && FenceFree(s)
    ensures FenceFree(s[i..j])
  {
    forall k | 0 <= k < j - i ensures !FenceAt(s[i..j], k) {
      assert FenceAt(s[i..j], k) ==> FenceAt(s, i + k);
    }
  }

  lemma JsonFenceIsFence(s: string)
    ensures StartsWith(s, JsonFence) ==> StartsWith(s, Fence)
  {
    if StartsWith(s, JsonFence) {
      assert s[..3] == s[..7][..3];
    }
  }

  /** A closing fence after the text removes nothing else. */
  lemma {:induction false} StripTrailingFence(x: string)
    ensures StripFences(x + Fence) == StripFences(x)
    decreases |x|
  {
    var y := x + Fence;
    if |x| == 0 {
      assert y == Fence;
      assert y[3..] == "";
    } else if StartsWith(x, JsonFence) {
      assert y[..7] == x[..7];
      assert y[7..] == x[7..] + Fence;
      StripTrailingFence(x[7..]);
    } else if StartsWith(x, Fence) {
      assert y[..3] == x[..3];
      if |x| < 7 {
        // the closing fence puts a backtick where "json" would have to be
        assert y[|x|] == '`' && JsonFence[|x|] != '`';
      } else {
        assert y[..7] == x[..7];
      }
      assert y[3..] == x[3..] + Fence;
      StripTrailingFence(x[3..]);
    } else if |x| >= 3 {
      assert y[..3] == x[..3];
      JsonFenceIsFence(y);
      assert y[1..] == x[1..] + Fence;
      StripTrailingFence(x[1..]);
      assert x[0] == y[0];
    } else if x[0] == '`' && (|x| == 1 || x[1] == '`') {
      // one or two backticks, which the closing fence lengthens
      assert y[..3] == Fence;
      assert y[3..] == x;
    } else {
      assert y[0] == x[0];
      if |x| >= 2 { assert y[1] == x[1]; }
      assert y[..3] != Fence by { assert y[..3][0] == y[0] && y[..3][1] == y[1]; }
      JsonFenceIsFence(y);
      assert y[1..] == x[1..] + Fence;
      StripTrailingFence(x[1..]);
      assert x[0] == y[0];
    }
  }

  // ---------------------------------------------------------------------
  // Properties of the cleaned reply

  /** Trimming cannot create three backticks in a row. */
  lemma TrimFenceFree(s: string)
    requires FenceFree(s)
    ensures FenceFree(Trim(s))
  {
    TrimPiece(s);
    FenceFreeSlice(s, TrimOffset(s), TrimOffset(s) + |Trim(s)|);
  }

  /** The cleaned reply has no surrounding white space and no "```" anywhere. */
  lemma CleanShape(reply: string)
    ensures var c := Clean(reply);
      && FenceFree(c)
      && (|c| > 0 ==> !IsJsWhitespace(c[0]) && !IsJsWhitespace(c[|c| - 1]))
  {
    var s := StripFences(reply);
    StripFencesLeavesNoFence(reply);
    TrimFenceFree(s);
    TrimEnds(s);
  }

  /** Cleaning an already cleaned reply changes nothing. */
  lemma CleanIdempotent(reply: string)
    ensures Clean(Clean(reply)) == Clean(reply)
  {
    var c := Clean(reply);
    CleanShape(reply);
    StripFencesUnchanged(c);
    TrimUnchanged(c);
  }

  /** A reply with no three backticks in a row (in particular none at all) is only trimmed. */
  lemma CleanWithoutFence(reply: string)
    requires FenceFree(reply)
    ensures Clean(reply) == Trim(reply)
  {
    StripFencesUnchanged(reply);
  }

  /** A reply wrapped as "```json ... ```" cleans like its content. */
  lemma CleanJsonFenced(x: string)
    ensures Clean(JsonFence + x + Fence) == Clean(x)
  {
    var y := JsonFence + x + Fence;
    assert y[..7] == JsonFence;
    assert y[7..] == x + Fence;
    StripTrailingFence(x);
  }

  /** A reply wrapped in bare fences cleans like its content, unless the content starts with "json". */
  lemma CleanBareFenced(x: string)
    requires !StartsWith(x, "json")
    ensures Clean(Fence + x + Fence) == Clean(x)
  {
    var y := Fence + x + Fence;
    assert y[..3] == Fence;
    if |x| < 4 {
      assert y[3 + |x|] == '`' && JsonFence[3 + |x|] != '`';
    } else {
      assert x[..4] != "json";
      assert y[..7][3..] == x[..4];
    }
    assert y[3..] == x + Fence;
    StripTrailingFence(x);
  }

  /** In bare fences, content starting with "json" loses those four letters: the opening fence and the word form "```json". */
  lemma CleanBareFencedJson(rest: string)
    ensures Clean(Fence + "json" + rest + Fence) == Clean(rest)
  {
    var y := Fence + "json" + rest + Fence;
    assert y[..7] == JsonFence;
    assert y[7..] == rest + Fence;
    StripTrailingFence(rest);
  }

  /**
   * So the exception is real: content such as "json1" (any trimmed,
   * fence-free text after "json") cleans to itself, yet wrapped in bare
   * fences it cleans to what follows "json".
   */
  lemma CleanBareFencedCounterexample(rest: string)
    requires FenceFree(rest) && |rest| > 0
    requires !IsJsWhitespace(rest[0]) && !IsJsWhitespace(rest[|rest| - 1])
    ensures Clean("json" + rest) == "json" + rest
    ensures Clean(Fence + "json" + rest + Fence) == rest
  {
    CleanBareFencedJson(rest);
    StripFencesUnchanged(rest);
    TrimUnchanged(rest);
    var x := "json" + rest;
    forall i | 0 <= i < |x| ensures !FenceAt(x, i) {
      if i < 4 {
        assert x[i] == "json"[i];
      } else {
        assert FenceAt(x, i) ==> FenceAt(rest, i - 4);
      }
    }
    CleanWithoutFence(x);
    TrimUnchanged(x);
  }
}
