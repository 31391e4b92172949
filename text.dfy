/** The two string operations of Go's standard library whose exact behaviour the
    browser depends on: splitting on a one-character separator, and substring search. */
module Text {

  /** The pieces of `s` between the occurrences of `sep`, in order, as strings.Split
      returns them for a one-character separator (the empty string gives one empty piece). */
  function Split(s: string, sep: char): (r: seq<string>)
    ensures |r| >= 1
    ensures forall i :: 0 <= i < |r| ==> sep !in r[i]
    ensures r[0] <= s
    decreases |s|
  {
    if s == [] then [""]
    else
      var rest := Split(s[1..], sep);
      if s[0] == sep then [""] + rest
      else
        assert [s[0]] + rest[0] <= [s[0]] + s[1..];
        [[s[0]] + rest[0]] + rest[1..]
  }

  /** The pieces glued back together with `sep` between neighbours (strings.Join). */
  function Join(parts: seq<string>, sep: char): string
    requires |parts| >= 1
    decreases |parts|
  {
    if |parts| == 1 then parts[0] else parts[0] + [sep] + Join(parts[1..], sep)
  }

  /** Splitting loses nothing: joining the pieces with the separator gives the input back. */
  lemma {:induction false} JoinSplit(s: string, sep: char)
    ensures Join(Split(s, sep), sep) == s
    decreases |s|
  {
    if s != [] {
      var rest := Split(s[1..], sep);
      JoinSplit(s[1..], sep);
      if s[0] == sep {
        assert Split(s, sep) == [""] + rest;
        assert ([""] + rest)[1..] == rest;
      } else if |rest| == 1 {
        assert Split(s, sep) == [[s[0]] + rest[0]];
      } else {
        var r := Split(s, sep);
        assert r == [[s[0]] + rest[0]] + rest[1..];
        assert r[1..] == rest[1..];
        calc {
          Join(r, sep);
          [s[0]] + rest[0] + [sep] + Join(rest[1..], sep);
          [s[0]] + (rest[0] + [sep] + Join(rest[1..], sep));
          [s[0]] + Join(rest, sep);
        }
      }
    }
  }

  /** A string splits into a single piece exactly when the separator does not occur in it. */
  lemma {:induction false} SplitSingle(s: string, sep: char)
    ensures |Split(s, sep)| == 1 <==> sep !in s
    decreases |s|
  {
    if s != [] {
      SplitSingle(s[1..], sep);
      assert sep in s <==> s[0] == sep || sep in s[1..];
    }
  }

  /** A separator-free first word followed by the separator splits off as the first piece. */
  lemma {:induction false} SplitAfterWord(word: string, sep: char, tail: string)
    requires sep !in word
    ensures Split(word + [sep] + tail, sep) == [word] + Split(tail, sep)
    decreases |word|
  {
    if word == [] {
      assert [sep] + tail == [sep] + tail;
      assert ([] + [sep] + tail)[1..] == tail;
    } else {
      var s := word + [sep] + tail;
      assert s[0] == word[0];
      assert s[1..] == word[1..] + [sep] + tail;
      SplitAfterWord(word[1..], sep, tail);
      assert [word[0]] + word[1..] == word;
    }
  }

  /** `sub` occurs in `s` starting at index `i`. */
  predicate OccursAt(s: string, sub: string, i: int)
  {
    0 <= i <= |s| - |sub| && s[i..i + |sub|] == sub
  }

  /** Whether `sub` occurs in `s` as a contiguous run (strings.Contains). */
  predicate Contains(s: string, sub: string)
    ensures sub <= s ==> Contains(s, sub)
    ensures Contains(s, sub) ==> |sub| <= |s|
    decreases |s|
  {
    sub <= s || (s != [] && Contains(s[1..], sub))
  }

  /** Contains agrees with the positional definition of a substring. */
  lemma {:induction false} ContainsIffOccurs(s: string, sub: string)
    ensures Contains(s, sub) <==> exists i :: OccursAt(s, sub, i)
    decreases |s|
  {
    if s != [] {
      ContainsIffOccurs(s[1..], sub);
    }
    if exists i :: OccursAt(s, sub, i) {
      var i :| OccursAt(s, sub, i);
      if i == 0 {
        assert sub == s[..|sub|];
      } else {
        assert s[1..][i - 1..i - 1 + |sub|] == s[i..i + |sub|];
        assert OccursAt(s[1..], sub, i - 1);
      }
    }
    if Contains(s, sub) {
      if sub <= s {
        assert s[0..|sub|] == sub;
        assert OccursAt(s, sub, 0);
      } else {
        var i :| OccursAt(s[1..], sub, i);
        assert s[1..][i..i + |sub|] == s[i + 1..i + 1 + |sub|];
        assert OccursAt(s, sub, i + 1);
      }
    }
  }
}
