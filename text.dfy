/**
 The few Python string operations the weather tool relies on, as functions on
 `string` (a `seq<char>`): `str.lower` for cache keys and the exit command,
 `str.strip` for input lines and city tokens, and `str.split` on one separator.
 */
module Text {

  /** Python's `str.isspace` for one character: the characters `str.strip()` removes. */
  predicate IsSpace(c: char) {
    || ('\t' <= c <= '\r')
    || ('\U{1C}' <= c <= '\U{1F}')
    || c == ' '
    || c == '\U{85}'
    || c == '\U{A0}'
    || c == '\U{1680}'
    || ('\U{2000}' <= c <= '\U{200A}')
    || c == '\U{2028}'
    || c == '\U{2029}'
    || c == '\U{202F}'
    || c == '\U{205F}'
    || c == '\U{3000}'
  }

  predicate AllSpace(s: string) {
    forall k :: 0 <= k < |s| ==> IsSpace(s[k])
  }

  /** Upper-case letters whose lower-case form is one code point further by 32:
      ASCII A-Z and the Latin-1 capitals U+00C0..U+00DE except U+00D7. */
  predicate IsUpper(c: char) {
    ('A' <= c <= 'Z') || ('\U{C0}' <= c <= '\U{DE}' && c != '\U{D7}')
  }

  function LowerChar(c: char): (d: char)
    ensures !IsUpper(d)
    ensures !IsUpper(c) ==> d == c
    ensures IsUpper(c) ==> d as int == c as int + 32
  {
    if IsUpper(c) then (c as int + 32) as char else c
  }

  /** `str.lower` restricted to the letters `IsUpper` describes. */
  function Lower(s: string): (r: string)
    ensures |r| == |s|
    ensures forall k :: 0 <= k < |r| ==> !IsUpper(r[k])
    ensures forall k :: 0 <= k < |s| && !IsUpper(s[k]) ==> r[k] == s[k]
    ensures forall k :: 0 <= k < |s| && IsUpper(s[k]) ==> r[k] as int == s[k] as int + 32
  {
    seq(|s|, k requires 0 <= k < |s| => LowerChar(s[k]))
  }

  /** Lower-casing twice is lower-casing once: a cache key is its own key. */
  lemma LowerIdempotent(s: string)
    ensures Lower(Lower(s)) == Lower(s)
  {
  }

  /** Two names that differ only in letter case share one lower-case form: at
      each position the characters are equal, or one is a capital and the other
      its small letter. */
  lemma LowerIgnoresCase(s: string, t: string)
    requires |s| == |t|
    requires forall k :: 0 <= k < |s| ==>
      || s[k] == t[k]
      || (IsUpper(t[k]) && s[k] as int == t[k] as int + 32)
      || (IsUpper(s[k]) && t[k] as int == s[k] as int + 32)
    ensures Lower(s) == Lower(t)
  {
    forall k | 0 <= k < |s| ensures Lower(s)[k] == Lower(t)[k] {
      if IsUpper(t[k]) && s[k] as int == t[k] as int + 32 {
        assert !IsUpper(s[k]);
      } else if IsUpper(s[k]) && t[k] as int == s[k] as int + 32 {
        assert !IsUpper(t[k]);
      }
    }
  }

  /** `str.strip()`: whitespace removed at both ends, one character at a time. */
  function Strip(s: string): (r: string)
    ensures |r| <= |s|
    ensures r == [] || (!IsSpace(r[0]) && !IsSpace(r[|r| - 1]))
    decreases |s|
  {
    if s != [] && IsSpace(s[0]) then Strip(s[1..])
    else if s != [] && IsSpace(s[|s| - 1]) then Strip(s[..|s| - 1])
    else s
  }

  /** Only an all-whitespace line strips to the empty string. */
  lemma {:induction false} StripEmpty(s: string)
    ensures Strip(s) == [] <==> AllSpace(s)
    decreases |s|
  {
    if s != [] {
      if IsSpace(s[0]) {
        StripEmpty(s[1..]);
        assert AllSpace(s) <==> AllSpace(s[1..]) by {
          if AllSpace(s[1..]) {
            forall k | 0 < k < |s| ensures IsSpace(s[k]) { assert s[k] == s[1..][k - 1]; }
          }
        }
      } else if IsSpace(s[|s| - 1]) {
        var t := s[..|s| - 1];
        StripEmpty(t);
        assert t[0] == s[0];
      }
    }
  }

  /** A character that is not whitespace survives stripping. */
  lemma {:induction false} StripKeeps(s: string, c: char)
    requires c in s && !IsSpace(c)
    ensures c in Strip(s)
    decreases |s|
  {
    var k :| 0 <= k < |s| && s[k] == c;
    if IsSpace(s[0]) {
      assert s[1..][k - 1] == c;
      StripKeeps(s[1..], c);
    } else if IsSpace(s[|s| - 1]) {
      assert s[..|s| - 1][k] == c;
      StripKeeps(s[..|s| - 1], c);
    }
  }

  /** A string without whitespace at its ends is its own stripped form. */
  lemma StripUnpadded(word: string)
    requires word == [] || (!IsSpace(word[0]) && !IsSpace(word[|word| - 1]))
    ensures Strip(word) == word
  {
  }

  /** Whitespace in front makes no difference to the stripped form. */
  lemma {:induction false} StripFront(pre: string, t: string)
    requires AllSpace(pre)
    ensures Strip(pre + t) == Strip(t)
    decreases |pre|
  {
    if pre != [] {
      var s := pre + t;
      assert s[0] == pre[0];
      assert s[1..] == pre[1..] + t;
      assert AllSpace(pre[1..]) by {
        forall k | 0 <= k < |pre| - 1 ensures IsSpace(pre[1..][k]) { assert pre[1..][k] == pre[k + 1]; }
      }
      StripFront(pre[1..], t);
    } else {
      assert pre + t == t;
    }
  }

  /** Whitespace behind makes no difference to the stripped form. */
  lemma {:induction false} StripBack(t: string, post: string)
    requires AllSpace(post)
    ensures Strip(t + post) == Strip(t)
    decreases |t| + |post|
  {
    var s := t + post;
    if t == [] {
      assert s == post;
      StripEmpty(post);
    } else if IsSpace(t[0]) {
      assert s[0] == t[0];
      assert s[1..] == t[1..] + post;
      StripBack(t[1..], post);
    } else if post != [] {
      var shorter := post[..|post| - 1];
      assert s[0] == t[0];
      assert s[|s| - 1] == post[|post| - 1];
      assert s[..|s| - 1] == t + shorter;
      assert AllSpace(shorter) by {
        forall k | 0 <= k < |shorter| ensures IsSpace(shorter[k]) { assert shorter[k] == post[k]; }
      }
      StripBack(t, shorter);
    } else {
      assert s == t;
    }
  }

  /** Stripping a padded word gives the word back. */
  lemma StripPadded(pre: string, word: string, post: string)
    requires AllSpace(pre) && AllSpace(post)
    requires word == [] || (!IsSpace(word[0]) && !IsSpace(word[|word| - 1]))
    ensures Strip(pre + word + post) == word
  {
    assert pre + word + post == pre + (word + post);
    StripFront(pre, word + post);
    StripBack(word, post);
    StripUnpadded(word);
  }

  /** Stripping a word with whitespace in front only gives the word back. */
  lemma StripLeading(pre: string, word: string)
    requires AllSpace(pre)
    requires word == [] || (!IsSpace(word[0]) && !IsSpace(word[|word| - 1]))
    ensures Strip(pre + word) == word
  {
    StripPadded(pre, word, []);
    assert pre + word + [] == pre + word;
  }

  /** `s.split(sep)` for a one-character separator: always at least one part,
      empty parts kept (`",a,"` gives `["", "a", ""]`). */
  function Split(s: string, sep: char): (parts: seq<string>)
    ensures |parts| >= 1
    decreases |s|
  {
    if s == [] then [[]]
    else
      var rest := Split(s[1..], sep);
      if s[0] == sep then [[]] + rest
      else [[s[0]] + rest[0]] + rest[1..]
  }

  /** `sep.join(parts)`, the inverse of `Split`. */
  function Join(parts: seq<string>, sep: char): (s: string)
    requires |parts| >= 1
    decreases |parts|
  {
    if |parts| == 1 then parts[0] else parts[0] + [sep] + Join(parts[1..], sep)
  }

  function Count(s: string, c: char): (n: nat)
    ensures n <= |s|
    ensures n == 0 <==> c !in s
  {
    if s == [] then 0 else (if s[0] == c then 1 else 0) + Count(s[1..], c)
  }

  /** No part of a split contains the separator. */
  lemma {:induction false} SplitPartsFree(s: string, sep: char)
    ensures forall p :: p in Split(s, sep) ==> sep !in p
    decreases |s|
  {
    if s != [] {
      SplitPartsFree(s[1..], sep);
      var rest := Split(s[1..], sep);
      if s[0] != sep {
        assert rest[0] in rest;
        forall p | p in Split(s, sep) ensures sep !in p {
          if p != [s[0]] + rest[0] { assert p in rest[1..]; }
        }
      }
    }
  }

  /** Splitting on `sep` yields one part more than there are separators. */
  lemma {:induction false} SplitLength(s: string, sep: char)
    ensures |Split(s, sep)| == Count(s, sep) + 1
    decreases |s|
  {
    if s != [] {
      SplitLength(s[1..], sep);
    }
  }

  /** Joining the parts back gives the original string. */
  lemma {:induction false} JoinSplit(s: string, sep: char)
    ensures Join(Split(s, sep), sep) == s
    decreases |s|
  {
    if s != [] {
      JoinSplit(s[1..], sep);
      var rest := Split(s[1..], sep);
      if s[0] == sep {
        assert Split(s, sep)[1..] == rest;
      } else {
        var parts := Split(s, sep);
        if |rest| == 1 {
          assert parts == [[s[0]] + rest[0]];
        } else {
          assert parts[1..] == rest[1..];
          assert Join(rest, sep) == rest[0] + [sep] + Join(rest[1..], sep);
        }
      }
    }
  }

  /** A join whose first part is not empty starts with that part's first character. */
  lemma JoinHead(parts: seq<string>, sep: char)
    requires |parts| >= 1 && parts[0] != []
    ensures Join(parts, sep) == [parts[0][0]] + Join([parts[0][1..]] + parts[1..], sep)
  {
    var p := parts[0];
    var tailParts := [p[1..]] + parts[1..];
    assert [p[0]] + p[1..] == p;
    if |parts| > 1 {
      assert tailParts[1..] == parts[1..];
      assert Join(tailParts, sep) == p[1..] + [sep] + Join(parts[1..], sep);
    }
  }

  /** Splitting a join of separator-free parts gives the parts back. */
  lemma {:induction false} SplitJoin(parts: seq<string>, sep: char)
    requires |parts| >= 1
    requires forall k :: 0 <= k < |parts| ==> sep !in parts[k]
    ensures Split(Join(parts, sep), sep) == parts
    decreases |parts|, |parts[0]|
  {
    var s := Join(parts, sep);
    if parts[0] != [] {
      var p := parts[0];
      var tailParts := [p[1..]] + parts[1..];
      assert sep !in p[1..] by { assert forall c :: c in p[1..] ==> c in p; }
      assert p[0] != sep by { assert p[0] in p; }
      SplitJoin(tailParts, sep);
      JoinHead(parts, sep);
      assert s[0] == p[0] && s[1..] == Join(tailParts, sep);
      assert [p[0]] + p[1..] == p;
      assert tailParts[1..] == parts[1..];
    } else if |parts| > 1 {
      SplitJoin(parts[1..], sep);
      assert s == [sep] + Join(parts[1..], sep);
      assert s[1..] == Join(parts[1..], sep);
      assert [[]] + parts[1..] == parts;
    }
  }
}
