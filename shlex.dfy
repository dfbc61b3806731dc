/**
 * A stand-in for `shlex::split`: words separated by unquoted blanks
 * (space, tab, newline); a single- or double-quoted run belongs to the
 * current word without its quotes, and may make an empty word; an
 * unterminated quote makes the whole split fail.
 */
module Shlex {
  import opened Wrappers

  predicate IsBlank(c: char) {
    c == ' ' || c == '\t' || c == '\n'
  }

  /** A character with no meaning to the tokenizer. */
  predicate IsPlain(c: char) {
    !IsBlank(c) && c != '\'' && c != '"'
  }

  datatype Quote = Unquoted | InSingle | InDouble

  function Split(s: string): (r: Option<seq<string>>)
    ensures s == [] ==> r == Some([])
    ensures r.Some? ==> forall t :: t in r.value ==> |t| <= |s|
  {
    ScanBounded(s, 0, Unquoted, false, [], []);
    Scan(s, 0, Unquoted, false, [], [])
  }

  /**
   * Scans `s` from index `i` in quoting state `quote`; `word` is the word
   * being built (`inWord` says whether one has started) and `done` the
   * words already finished.
   */
  function Scan(s: string, i: nat, quote: Quote, inWord: bool, word: string, done: seq<string>): Option<seq<string>>
    requires i <= |s|
    decreases |s| - i
  {
    if i == |s| then
      if !quote.Unquoted? then None
      else if inWord then Some(done + [word])
      else Some(done)
    else
      var c := s[i];
      match quote
      case InSingle =>
        if c == '\'' then Scan(s, i + 1, Unquoted, true, word, done)
        else Scan(s, i + 1, InSingle, true, word + [c], done)
      case InDouble =>
        if c == '"' then Scan(s, i + 1, Unquoted, true, word, done)
        else Scan(s, i + 1, InDouble, true, word + [c], done)
      case Unquoted =>
        if IsBlank(c) then Scan(s, i + 1, Unquoted, false, [], if inWord then done + [word] else done)
        else if c == '\'' then Scan(s, i + 1, InSingle, true, word, done)
        else if c == '"' then Scan(s, i + 1, InDouble, true, word, done)
        else Scan(s, i + 1, Unquoted, true, word + [c], done)
  }

  /** No word is longer than the text it was taken from. */
  lemma {:induction false} ScanBounded(s: string, i: nat, quote: Quote, inWord: bool, word: string, done: seq<string>)
    requires i <= |s| && |word| <= i
    requires forall t :: t in done ==> |t| <= i
    ensures var r := Scan(s, i, quote, inWord, word, done);
      r.Some? ==> forall t :: t in r.value ==> |t| <= |s|
    decreases |s| - i
  {
    if i < |s| {
      var c := s[i];
      match quote
      case InSingle =>
        if c == '\'' {
          ScanBounded(s, i + 1, Unquoted, true, word, done);
        } else {
          ScanBounded(s, i + 1, InSingle, true, word + [c], done);
        }
      case InDouble =>
        if c == '"' {
          ScanBounded(s, i + 1, Unquoted, true, word, done);
        } else {
          ScanBounded(s, i + 1, InDouble, true, word + [c], done);
        }
      case Unquoted =>
        if IsBlank(c) {
          ScanBounded(s, i + 1, Unquoted, false, [], if inWord then done + [word] else done);
        } else if c == '\'' {
          ScanBounded(s, i + 1, InSingle, true, word, done);
        } else if c == '"' {
          ScanBounded(s, i + 1, InDouble, true, word, done);
        } else {
          ScanBounded(s, i + 1, Unquoted, true, word + [c], done);
        }
    }
  }

  lemma {:induction false} ScanBlanks(s: string, i: nat)
    requires i <= |s|
    requires forall k :: i <= k < |s| ==> IsBlank(s[k])
    ensures Scan(s, i, Unquoted, false, [], []) == Some([])
    decreases |s| - i
  {
    if i < |s| {
      ScanBlanks(s, i + 1);
    }
  }

  /** Text made only of blanks has no words. */
  lemma SplitBlanks(s: string)
    requires forall k :: 0 <= k < |s| ==> IsBlank(s[k])
    ensures Split(s) == Some([])
  {
    ScanBlanks(s, 0);
  }

  /** Plain characters extend the current word. */
  lemma {:induction false} ScanWord(s: string, j: nat, i: nat, m: nat, done: seq<string>)
    requires j < i <= m <= |s|
    requires forall k :: j <= k < m ==> IsPlain(s[k])
    ensures Scan(s, i, Unquoted, true, s[j..i], done) == Scan(s, m, Unquoted, true, s[j..m], done)
    decreases m - i
  {
    if i < m {
      assert s[j..i] + [s[i]] == s[j..i + 1];
      ScanWord(s, j, i + 1, m, done);
    }
  }

  /** Non-empty text with no blank and no quote is a single word. */
  lemma SplitPlain(s: string)
    requires s != []
    requires forall k :: 0 <= k < |s| ==> IsPlain(s[k])
    ensures Split(s) == Some([s])
  {
    assert [] + [s[0]] == s[0..1];
    ScanWord(s, 0, 1, |s|, []);
    assert s[0..|s|] == s && [] + [s] == [s];
  }

  /** A plain word followed by a blank is that one word. */
  lemma SplitWordBlank(a: string)
    requires a != []
    requires forall k :: 0 <= k < |a| ==> IsPlain(a[k])
    ensures Split(a + " ") == Some([a])
  {
    var s := a + " ";
    assert [] + [s[0]] == s[0..1];
    ScanWord(s, 0, 1, |a|, []);
    assert s[0..|a|] == a && [] + [a] == [a];
  }

  /** A blank followed by a plain word is that one word. */
  lemma SplitBlankWord(a: string)
    requires a != []
    requires forall k :: 0 <= k < |a| ==> IsPlain(a[k])
    ensures Split(" " + a) == Some([a])
  {
    var s := " " + a;
    assert Split(s) == Scan(s, 1, Unquoted, false, [], []);
    assert s[1] == a[0] && [] + [s[1]] == s[1..2];
    assert Scan(s, 1, Unquoted, false, [], []) == Scan(s, 2, Unquoted, true, s[1..2], []);
    ScanWord(s, 1, 2, |s|, []);
    assert s[1..|s|] == a && [] + [a] == [a];
  }

  /** Two plain words separated by one space are those two words. */
  lemma SplitTwoWords(a: string, b: string)
    requires a != [] && b != []
    requires forall k :: 0 <= k < |a| ==> IsPlain(a[k])
    requires forall k :: 0 <= k < |b| ==> IsPlain(b[k])
    ensures Split(a + " " + b) == Some([a, b])
  {
    var s := a + " " + b;
    var n := |a| + 1;
    assert [] + [s[0]] == s[0..1];
    assert Split(s) == Scan(s, 1, Unquoted, true, s[0..1], []);
    ScanWord(s, 0, 1, |a|, []);
    assert s[0..|a|] == a && [] + [a] == [a];
    assert Scan(s, |a|, Unquoted, true, a, []) == Scan(s, n, Unquoted, false, [], [a]);
    assert s[n] == b[0] && [] + [s[n]] == s[n..n + 1];
    assert Scan(s, n, Unquoted, false, [], [a]) == Scan(s, n + 1, Unquoted, true, s[n..n + 1], [a]);
    ScanWord(s, n, n + 1, |s|, [a]);
    assert s[n..|s|] == b && [a] + [b] == [a, b];
  }

  /** Inside double quotes, reaching the end before a closing quote makes the split fail. */
  lemma {:induction false} ScanOpenDouble(s: string, i: nat, word: string, done: seq<string>)
    requires i <= |s|
    requires forall k :: i <= k < |s| ==> s[k] != '"'
    ensures Scan(s, i, InDouble, true, word, done) == None
    decreases |s| - i
  {
    if i < |s| {
      ScanOpenDouble(s, i + 1, word + [s[i]], done);
    }
  }

  /** A line that opens a double quote and never closes it cannot be split. */
  lemma SplitOpenDouble(s: string)
    requires s != [] && s[0] == '"'
    requires forall k :: 1 <= k < |s| ==> s[k] != '"'
    ensures Split(s) == None
  {
    ScanOpenDouble(s, 1, [], []);
  }
}
