/**
 * The two string operations of Ruby and ActiveSupport that the Food
 * validations rely on: `String#split` with no argument (the word count)
 * and `Object#present?` (the presence checks).
 */
module RubyString {
  import opened Wrappers

  /** The ASCII whitespace that argument-less `String#split` separates on:
      tab, line feed, vertical tab, form feed, carriage return and space. */
  predicate IsSplitSpace(c: char) {
    var n := c as int;
    n == 0x20 || (0x09 <= n && n <= 0x0D)
  }

  /** The Unicode White_Space characters, which `String#blank?` treats as blank
      (the POSIX class [[:space:]] on a Unicode string). */
  predicate IsBlankSpace(c: char) {
    var n := c as int;
    IsSplitSpace(c) || n == 0x85 || n == 0xA0 || n == 0x1680
    || (0x2000 <= n && n <= 0x200A)
    || n == 0x2028 || n == 0x2029 || n == 0x202F || n == 0x205F || n == 0x3000
  }

  /** `String#blank?`: empty, or nothing but blank characters. */
  predicate IsBlank(s: string) {
    forall i :: 0 <= i < |s| ==> IsBlankSpace(s[i])
  }

  /** `present?` on a string attribute that may be nil. */
  predicate Present(s: Option<string>)
    ensures Present(s) ==> s.Some? && s.value != []
    ensures s.Some? && s.value != [] && !IsBlankSpace(s.value[0]) ==> Present(s)
  {
    s.Some? && !IsBlank(s.value)
  }

  /** A token of `split`: non-empty and free of separators. */
  predicate IsWord(w: string) {
    w != [] && forall i :: 0 <= i < |w| ==> !IsSplitSpace(w[i])
  }

  /** The longest prefix of `s` that holds no separator. */
  function LeadingWord(s: string): (w: string)
    ensures w <= s
    ensures forall i :: 0 <= i < |w| ==> !IsSplitSpace(w[i])
    ensures |w| < |s| ==> IsSplitSpace(s[|w|])
    ensures s != [] && !IsSplitSpace(s[0]) ==> w != []
  {
    if s == [] || IsSplitSpace(s[0]) then [] else [s[0]] + LeadingWord(s[1..])
  }

  /** `String#split` with no argument: runs of whitespace separate the tokens,
      and leading or trailing whitespace yields no empty token. */
  function Split(s: string): (words: seq<string>)
    ensures forall k :: 0 <= k < |words| ==> IsWord(words[k])
    decreases |s|
  {
    if s == [] then []
    else if IsSplitSpace(s[0]) then Split(s[1..])
    else
      var w := LeadingWord(s);
      [w] + Split(s[|w|..])
  }

  /** The characters of `s` that are not separators, in order. */
  function NonSpace(s: string): string {
    if s == [] then []
    else (if IsSplitSpace(s[0]) then [] else [s[0]]) + NonSpace(s[1..])
  }

  /** The tokens written one after the other. */
  function Concat(words: seq<string>): string {
    if words == [] then [] else words[0] + Concat(words[1..])
  }

  /** The number of positions where a word begins: a non-separator that
      starts the string (`atStart`) or follows a separator. */
  function WordStarts(s: string, atStart: bool): nat {
    if s == [] then 0
    else (if atStart && !IsSplitSpace(s[0]) then 1 else 0) + WordStarts(s[1..], IsSplitSpace(s[0]))
  }

  lemma {:induction false} NonSpaceAppend(a: string, b: string)
    ensures NonSpace(a + b) == NonSpace(a) + NonSpace(b)
  {
    if a != [] {
      assert (a + b)[0] == a[0];
      assert (a + b)[1..] == a[1..] + b;
      NonSpaceAppend(a[1..], b);
    } else {
      assert a + b == b;
    }
  }

  /** A string without separators is its own non-space content. */
  lemma {:induction false} NonSpaceOfWord(w: string)
    requires forall i :: 0 <= i < |w| ==> !IsSplitSpace(w[i])
    ensures NonSpace(w) == w
  {
    if w != [] {
      NonSpaceOfWord(w[1..]);
    }
  }

  /** Splitting drops the separators and nothing else: the tokens, joined,
      are exactly the non-space characters of the input. */
  lemma {:induction false} SplitKeepsText(s: string)
    ensures Concat(Split(s)) == NonSpace(s)
    decreases |s|
  {
    if s == [] {
    } else if IsSplitSpace(s[0]) {
      SplitKeepsText(s[1..]);
    } else {
      var w := LeadingWord(s);
      var rest := s[|w|..];
      assert s == w + rest;
      SplitKeepsText(rest);
      NonSpaceAppend(w, rest);
      NonSpaceOfWord(w);
      assert Split(s) == [w] + Split(rest);
    }
  }

  /** Inside a word no new word begins. */
  lemma {:induction false} WordStartsInsideWord(w: string, rest: string)
    requires forall i :: 0 <= i < |w| ==> !IsSplitSpace(w[i])
    requires w != []
    ensures WordStarts(w + rest, false) == WordStarts(rest, false)
    decreases |w|
  {
    assert (w + rest)[1..] == w[1..] + rest;
    if |w| > 1 {
      WordStartsInsideWord(w[1..], rest);
    }
  }

  /** The token count of `split` is the number of word beginnings. */
  lemma {:induction false} SplitCountsWordStarts(s: string)
    ensures |Split(s)| == WordStarts(s, true)
    decreases |s|
  {
    if s == [] {
    } else if IsSplitSpace(s[0]) {
      SplitCountsWordStarts(s[1..]);
    } else {
      var w := LeadingWord(s);
      var rest := s[|w|..];
      assert s == w + rest;
      SplitCountsWordStarts(rest);
      assert s[1..] == w[1..] + rest;
      if |w| > 1 {
        WordStartsInsideWord(w[1..], rest);
      }
      if rest != [] {
        assert IsSplitSpace(rest[0]);
      }
      assert WordStarts(s[1..], false) == WordStarts(rest, false);
      assert rest != [] ==> WordStarts(rest, false) == WordStarts(rest, true);
    }
  }

  /** A single word splits into itself. */
  lemma SplitWord(w: string)
    requires IsWord(w)
    ensures Split(w) == [w]
  {
    assert w + [] == w;
    LeadingWordOfWord(w, []);
    assert w[|w|..] == [];
  }

  lemma {:induction false} LeadingWordOfWord(w: string, rest: string)
    requires forall i :: 0 <= i < |w| ==> !IsSplitSpace(w[i])
    requires rest == [] || IsSplitSpace(rest[0])
    ensures LeadingWord(w + rest) == w
    decreases |w|
  {
    if w == [] {
    } else {
      assert (w + rest)[1..] == w[1..] + rest;
      LeadingWordOfWord(w[1..], rest);
    }
  }

  /** A separator cuts a string in two whose tokens are split independently. */
  lemma {:induction false} SplitAtSpace(a: string, c: char, b: string)
    requires IsSplitSpace(c)
    ensures Split(a + [c] + b) == Split(a) + Split(b)
    decreases |a|
  {
    var s := a + [c] + b;
    if a == [] {
      assert s[1..] == b;
    } else if IsSplitSpace(a[0]) {
      assert s[1..] == a[1..] + [c] + b;
      SplitAtSpace(a[1..], c, b);
    } else {
      var w := LeadingWord(a);
      var rest := a[|w|..];
      assert a == w + rest;
      assert s == w + (rest + [c] + b);
      LeadingWordOfWord(w, rest + [c] + b);
      assert s[|w|..] == rest + [c] + b;
      SplitAtSpace(rest, c, b);
      assert Split(s) == [w] + Split(rest + [c] + b);
    }
  }

  /** `words.join(" ")`: the words with one space between each two. */
  function Join(words: seq<string>): string
    decreases |words|
  {
    if words == [] then []
    else if |words| == 1 then words[0]
    else words[0] + [' '] + Join(words[1..])
  }

  /** Splitting undoes joining with single spaces. */
  lemma {:induction false} SplitJoin(words: seq<string>)
    requires forall k :: 0 <= k < |words| ==> IsWord(words[k])
    ensures Split(Join(words)) == words
    decreases |words|
  {
    if |words| == 1 {
      SplitWord(words[0]);
    } else if |words| > 1 {
      SplitAtSpace(words[0], ' ', Join(words[1..]));
      SplitWord(words[0]);
      SplitJoin(words[1..]);
      assert words == [words[0]] + words[1..];
    }
  }

  /** A string without tokens is blank, so a present string has at least one
      token. The converse fails: a no-break space is blank to `blank?` but is a
      token to `split`. */
  lemma {:induction false} NoWordsIsBlank(s: string)
    requires Split(s) == []
    ensures IsBlank(s)
    decreases |s|
  {
    if s != [] {
      assert IsSplitSpace(s[0]);
      NoWordsIsBlank(s[1..]);
      assert forall i :: 1 <= i < |s| ==> s[i] == s[1..][i - 1];
    }
  }
}
