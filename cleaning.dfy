/** Cleaning of the generative service's reply before it is parsed:
    `reply.replace(/```json/g, '').replace(/```/g, '').trim()`.
    A global replace of a literal pattern by the empty string scans left to
    right and drops every leftmost, non-overlapping occurrence; `trim` drops
    ECMAScript white space and line terminators at both ends. */
module Cleaning {

  const JsonFence: string := "```json"
  const Fence: string := "```"

  /** `s` begins with `p`. */
  predicate StartsWith(s: string, p: string) {
    |p| <= |s| && s[..|p|] == p
  }

  /** `p` occurs somewhere in `s`. */
  predicate Contains(s: string, p: string)
    decreases |s|
  {
    StartsWith(s, p) || (s != [] && Contains(s[1..], p))
  }

  /** `s.replace(/p/g, '')` for a pattern `p` made of literal characters:
      every leftmost, non-overlapping occurrence of `p` is removed and the
      remaining characters keep their order. */
  function RemoveAll(s: string, p: string): (r: string)
    requires p != []
    ensures |r| <= |s|
    ensures !Contains(s, p) ==> r == s
    decreases |s|
  {
    if s == [] then []
    else if StartsWith(s, p) then RemoveAll(s[|p|..], p)
    else [s[0]] + RemoveAll(s[1..], p)
  }

  /** ECMAScript WhiteSpace and LineTerminator code points: tab, vertical tab,
      form feed, the byte order mark, every space separator (category Zs),
      line feed, carriage return, line separator and paragraph separator. */
  predicate IsJsSpace(c: char) {
    || c == '\t' || c == '\U{B}' || c == '\U{C}' || c == '\U{FEFF}'
    || c == ' ' || c == '\U{A0}' || c == '\U{1680}'
    || ('\U{2000}' <= c <= '\U{200A}')
    || c == '\U{202F}' || c == '\U{205F}' || c == '\U{3000}'
    || c == '\n' || c == '\r' || c == '\U{2028}' || c == '\U{2029}'
  }

  /** `s.trimStart()`: the suffix of `s` that starts at its first non-space. */
  function TrimStart(s: string): (r: string)
    ensures |r| <= |s| && r == s[|s| - |r|..]
    ensures forall k :: 0 <= k < |s| - |r| ==> IsJsSpace(s[k])
    ensures r == [] || !IsJsSpace(r[0])
    decreases |s|
  {
    if s != [] && IsJsSpace(s[0]) then TrimStart(s[1..]) else s
  }

  /** `s.trimEnd()`: the prefix of `s` that ends at its last non-space. */
  function TrimEnd(s: string): (r: string)
    ensures |r| <= |s| && r == s[..|r|]
    ensures forall k :: |r| <= k < |s| ==> IsJsSpace(s[k])
    ensures r == [] || !IsJsSpace(r[|r| - 1])
    decreases |s|
  {
    if s != [] && IsJsSpace(s[|s| - 1]) then TrimEnd(s[..|s| - 1]) else s
  }

  /** `s.trim()`. */
  function Trim(s: string): string {
    TrimEnd(TrimStart(s))
  }

  /** The reply cleaning of the analysis step. */
  function Clean(reply: string): string {
    Trim(RemoveAll(RemoveAll(reply, JsonFence), Fence))
  }

  /** Every character of `s` outside positions `i` to `j` is white space. */
  predicate SpaceOutside(s: string, i: int, j: int) {
    forall k :: 0 <= k < |s| && !(i <= k < j) ==> IsJsSpace(s[k])
  }

  /** `r` is the slice of `s` that starts at position `i`, with only white
      space around it. */
  predicate IsSliceAt(s: string, r: string, i: int) {
    0 <= i <= |s| - |r| && r == s[i..i + |r|] && SpaceOutside(s, i, i + |r|)
  }

  /** Trimming keeps exactly one contiguous slice of the input, with only
      white space around it. */
  lemma TrimIsSlice(s: string)
    ensures exists i :: IsSliceAt(s, Trim(s), i)
  {
    var t := TrimStart(s);
    var r := TrimEnd(t);
    SliceOfSuffix(s, t, r);
    assert IsSliceAt(s, Trim(s), |s| - |t|);
  }

  /** A slice of a suffix, each with only white space cut off, is a slice of
      the whole string with only white space around it. */
  lemma SliceOfSuffix(s: string, t: string, r: string)
    requires |t| <= |s| && t == s[|s| - |t|..]
    requires forall k :: 0 <= k < |s| - |t| ==> IsJsSpace(s[k])
    requires |r| <= |t| && r == t[..|r|]
    requires forall k :: |r| <= k < |t| ==> IsJsSpace(t[k])
    ensures IsSliceAt(s, r, |s| - |t|)
  {
    var i := |s| - |t|;
    assert r == s[i..i + |r|];
    forall k | 0 <= k < |s| && !(i <= k < i + |r|) ensures IsJsSpace(s[k]) {
      if k >= i {
        assert s[k] == t[k - i];
      }
    }
  }

  /** A trimmed string neither starts nor ends with white space. */
  lemma TrimHasNoOuterSpace(s: string)
    ensures Trim(s) == [] || (!IsJsSpace(Trim(s)[0]) && !IsJsSpace(Trim(s)[|Trim(s)| - 1]))
  {
    var t := TrimStart(s);
    var r := TrimEnd(t);
    if r != [] {
      assert r[0] == t[0];
    }
  }

  /** Trimming an already trimmed string changes nothing. */
  lemma TrimIdempotent(s: string)
    ensures Trim(Trim(s)) == Trim(s)
  {
    var r := Trim(s);
    TrimHasNoOuterSpace(s);
    var a := TrimStart(r);
    assert a == r;
    assert TrimEnd(a) == a;
  }

  /** An occurrence in a suffix is an occurrence in the whole string. */
  lemma {:induction false} ContainsInSuffix(s: string, p: string, i: nat)
    requires i <= |s|
    requires Contains(s[i..], p)
    ensures Contains(s, p)
    decreases i
  {
    if i > 0 {
      assert s[1..][i - 1..] == s[i..];
      ContainsInSuffix(s[1..], p, i - 1);
    }
  }

  /** An occurrence in a prefix is an occurrence in the whole string. */
  lemma {:induction false} ContainsInPrefix(s: string, p: string, j: nat)
    requires j <= |s|
    requires Contains(s[..j], p)
    ensures Contains(s, p)
    decreases j
  {
    if StartsWith(s[..j], p) {
      assert s[..|p|] == s[..j][..|p|];
    } else {
      assert j > 0 && Contains(s[..j][1..], p);
      assert s[..j][1..] == s[1..][..j - 1];
      ContainsInPrefix(s[1..], p, j - 1);
    }
  }

  /** Whatever is free of `p` stays free of `p` once trimmed. */
  lemma TrimKeepsAbsence(s: string, p: string)
    requires !Contains(s, p)
    ensures !Contains(Trim(s), p)
  {
    var t := TrimStart(s);
    if Contains(Trim(s), p) {
      ContainsInPrefix(t, p, |Trim(s)|);
      ContainsInSuffix(s, p, |s| - |t|);
    }
  }

  /** Whoever contains "```json" contains "```". */
  lemma {:induction false} JsonFenceHasFence(s: string)
    requires Contains(s, JsonFence)
    ensures Contains(s, Fence)
    decreases |s|
  {
    if StartsWith(s, JsonFence) {
      assert s[..3] == s[..7][..3];
    } else {
      JsonFenceHasFence(s[1..]);
    }
  }

  /** The number of backticks `s` starts with. */
  function LeadingTicks(s: string): nat
    decreases |s|
  {
    if s != [] && s[0] == '`' then 1 + LeadingTicks(s[1..]) else 0
  }

  /** A string starts with "```" exactly when it begins with three or more
      backticks. */
  lemma ThreeTicksIsFence(s: string)
    ensures LeadingTicks(s) >= 3 <==> StartsWith(s, Fence)
  {
    if |s| >= 3 && s[0] == '`' && s[1] == '`' && s[2] == '`' {
      assert LeadingTicks(s) == 3 + LeadingTicks(s[3..]) by {
        assert s[1..][1..][1..] == s[3..];
      }
    } else if |s| >= 1 && s[0] == '`' && |s[1..]| >= 1 && s[1] == '`' {
      assert LeadingTicks(s) == 2 + LeadingTicks(s[2..]) by {
        assert s[1..][1..] == s[2..];
      }
    }
  }

  /** Removing every "```" leaves a leading run of backticks shorter than
      three: the first run is reduced modulo three. */
  lemma {:induction false} RemoveFenceLeadingTicks(s: string)
    ensures LeadingTicks(RemoveAll(s, Fence)) == LeadingTicks(s) % 3
    decreases |s|
  {
    ThreeTicksIsFence(s);
    if s == [] {
    } else if StartsWith(s, Fence) {
      assert LeadingTicks(s) == 3 + LeadingTicks(s[3..]) by {
        assert s[1..][1..][1..] == s[3..];
      }
      RemoveFenceLeadingTicks(s[3..]);
    } else if s[0] == '`' {
      RemoveFenceLeadingTicks(s[1..]);
      assert RemoveAll(s, Fence) == ['`'] + RemoveAll(s[1..], Fence);
    } else {
      assert RemoveAll(s, Fence) == [s[0]] + RemoveAll(s[1..], Fence);
    }
  }

  /** No run of three backticks survives the removal of every "```"
      (removal never joins two shorter runs into a new fence). */
  lemma {:induction false} RemoveFenceLeavesNoFence(s: string)
    ensures !Contains(RemoveAll(s, Fence), Fence)
    decreases |s|
  {
    if s == [] {
    } else if StartsWith(s, Fence) {
      RemoveFenceLeavesNoFence(s[3..]);
    } else {
      var rest := RemoveAll(s[1..], Fence);
      var r := [s[0]] + rest;
      assert RemoveAll(s, Fence) == r;
      RemoveFenceLeavesNoFence(s[1..]);
      assert r[1..] == rest;
      ThreeTicksIsFence(s);
      RemoveFenceLeadingTicks(s[1..]);
      ThreeTicksIsFence(r);
      assert LeadingTicks(r) < 3;
    }
  }

  /** The cleaned reply contains no "```" and no "```json". */
  lemma CleanLeavesNoFence(reply: string)
    ensures !Contains(Clean(reply), Fence)
    ensures !Contains(Clean(reply), JsonFence)
  {
    var s := RemoveAll(RemoveAll(reply, JsonFence), Fence);
    RemoveFenceLeavesNoFence(RemoveAll(reply, JsonFence));
    TrimKeepsAbsence(s, Fence);
    if Contains(Clean(reply), JsonFence) {
      JsonFenceHasFence(Clean(reply));
    }
  }

  /** Cleaning an already cleaned reply changes nothing. */
  lemma CleanIdempotent(reply: string)
    ensures Clean(Clean(reply)) == Clean(reply)
  {
    var c := Clean(reply);
    CleanLeavesNoFence(reply);
    assert RemoveAll(c, JsonFence) == c;
    assert RemoveAll(c, Fence) == c;
    TrimIdempotent(RemoveAll(RemoveAll(reply, JsonFence), Fence));
  }

  /** Removal keeps a first character that does not start an occurrence. */
  lemma RemoveAllKeeps(c: char, s: string, p: string)
    requires p != [] && c != p[0]
    ensures RemoveAll([c] + s, p) == [c] + RemoveAll(s, p)
  {
    assert ([c] + s)[0] == c;
    assert ([c] + s)[1..] == s;
  }

  /** A string shorter than `p` cannot contain it. */
  lemma {:induction false} ShortLacks(s: string, p: string)
    requires |s| < |p|
    ensures !Contains(s, p)
    decreases |s|
  {
    if s != [] {
      ShortLacks(s[1..], p);
    }
  }

  /** Removal drops an occurrence at the front. */
  lemma RemoveAllDrops(s: string, p: string)
    requires p != [] && StartsWith(s, p)
    ensures RemoveAll(s, p) == RemoveAll(s[|p|..], p)
  {
  }

  /** A payload fenced as "```json", newline, payload, newline, "```" cleans
      to the payload itself, when the payload holds no backtick and does not
      start or end with white space. */
  lemma CleanUnwrapsFence(b: string)
    requires forall k :: 0 <= k < |b| ==> b[k] != '`'
    requires b == [] || (!IsJsSpace(b[0]) && !IsJsSpace(b[|b| - 1]))
    ensures Clean(JsonFence + "\n" + b + "\n" + Fence) == b
  {
    var inner := "\n" + b + "\n";
    assert forall k :: 0 <= k < |inner| ==> inner[k] != '`' by {
      forall k | 0 <= k < |inner| ensures inner[k] != '`' {
        if 0 < k < |inner| - 1 {
          assert inner[k] == b[k - 1];
        }
      }
    }
    var s := JsonFence + "\n" + b + "\n" + Fence;
    assert s == JsonFence + (inner + Fence);
    assert StartsWith(s, JsonFence) && s[|JsonFence|..] == inner + Fence;
    RemoveAllDrops(s, JsonFence);
    RemoveAllKeepsPrefix(inner, Fence, JsonFence);
    ShortLacks(Fence, JsonFence);
    assert RemoveAll(s, JsonFence) == inner + Fence;
    RemoveAllKeepsPrefix(inner, Fence, Fence);
    assert StartsWith(Fence, Fence) && Fence[|Fence|..] == [];
    RemoveAllDrops(Fence, Fence);
    assert RemoveAll(inner + Fence, Fence) == inner + [];
    assert inner + [] == inner;
    UnwrappedTrimmed(b);
  }

  /** Trimming the newline on each side of the payload leaves the payload. */
  lemma UnwrappedTrimmed(b: string)
    requires b == [] || (!IsJsSpace(b[0]) && !IsJsSpace(b[|b| - 1]))
    ensures Trim("\n" + b + "\n") == b
  {
    var inner := "\n" + b + "\n";
    if b == [] {
      assert inner[1..][1..] == [];
      assert TrimStart(inner) == TrimStart(inner[1..]);
    } else {
      assert inner == ['\n'] + (b + "\n");
      TrimStartSkips('\n', b + "\n");
      TrimEndSkips(b, '\n');
    }
  }

  /** A fenced empty array cleans to the bare "[]". */
  lemma CleanFencedEmptyArray()
    ensures Clean("```json\n[]\n```") == "[]"
  {
    var b := "[]";
    assert "```json\n[]\n```" == JsonFence + "\n" + b + "\n" + Fence;
    CleanUnwrapsFence(b);
  }

  /** A prefix without the pattern's first character is kept as it is. */
  lemma {:induction false} RemoveAllKeepsPrefix(s: string, q: string, p: string)
    requires p != [] && forall k :: 0 <= k < |s| ==> s[k] != p[0]
    ensures RemoveAll(s + q, p) == s + RemoveAll(q, p)
    decreases |s|
  {
    if s == [] {
      assert s + q == q;
    } else {
      var c, rest := s[0], s[1..];
      assert s + q == [c] + (rest + q) && s == [c] + rest;
      RemoveAllKeepsPrefix(rest, q, p);
      RemoveAllKeeps(c, rest + q, p);
    }
  }

  /** A leading space is dropped and a non-space stops `trimStart`. */
  lemma TrimStartSkips(c: char, s: string)
    requires IsJsSpace(c) && s != [] && !IsJsSpace(s[0])
    ensures TrimStart([c] + s) == s
  {
    assert ([c] + s)[1..] == s;
  }

  /** A trailing space is dropped and a non-space stops `trimEnd`. */
  lemma TrimEndSkips(s: string, c: char)
    requires IsJsSpace(c) && s != [] && !IsJsSpace(s[|s| - 1])
    ensures TrimEnd(s + [c]) == s
  {
    assert (s + [c])[..|s|] == s;
  }

  /** A reply with no fence and no white space at either end is its own
      cleaning. */
  lemma CleanKeepsPlainReply(s: string)
    requires !Contains(s, Fence)
    requires s == [] || (!IsJsSpace(s[0]) && !IsJsSpace(s[|s| - 1]))
    ensures Clean(s) == s
  {
    if Contains(s, JsonFence) {
      JsonFenceHasFence(s);
    }
    assert RemoveAll(RemoveAll(s, JsonFence), Fence) == s;
    assert TrimStart(s) == s;
    assert TrimEnd(s) == s;
  }

  /** The reply "null" is left as it is. */
  lemma CleanNullReply()
    ensures Clean("null") == "null"
  {
    var s := "null";
    assert !Contains(s, Fence) by {
      assert s[..3] != Fence by {
        assert s[0] != Fence[0];
      }
      assert s[1..][..3] != Fence by {
        assert s[1..][0] != Fence[0];
      }
      assert s[1..][1..] == "ll";
      ShortLacks(s[1..][1..], Fence);
    }
    CleanKeepsPlainReply(s);
  }
}
