/**
 * The BERT tokenizer behaviour fixed by its golden tests: the pre-encoder that lowercases,
 * strips accents and isolates punctuation, the WordPiece decoding that glues `##`
 * continuation pieces, and the toy encoding with its [CLS]/[SEP] wrapping, padded
 * tensor and attention mask.
 */
module BertTokenization {
  import opened Results
  import opened Strings
  import opened Tokenizer
  import opened TokenizationUtil

  /** BERT's punctuation rule on ASCII: every non-alphanumeric printable character except space. */
  predicate IsPunctuation(c: char)
  {
    ('!' <= c <= '/') || (':' <= c <= '@') || ('[' <= c <= '`') || ('{' <= c <= '~')
  }

  /** A combining diacritical mark (the U+0300..U+036F block, all of category Mn). */
  predicate IsCombiningMark(c: char)
  {
    '\U{0300}' <= c <= '\U{036F}'
  }

  /** Canonical decomposition of the precomposed Latin letters this model knows. */
  function Decompose(c: char): (d: string)
    ensures |d| >= 1 && forall j :: 1 <= j < |d| ==> IsCombiningMark(d[j])
    ensures c != ' ' ==> ' ' !in d
    ensures c < '\U{0080}' ==> d == [c]
    ensures !IsCombiningMark(c) ==> !IsCombiningMark(d[0])
    ensures IsCombiningMark(c) ==> d == [c]
  {
    match c
    case '\U{00E4}' => "a\U{0308}"
    case '\U{00F6}' => "o\U{0308}"
    case '\U{00FC}' => "u\U{0308}"
    case '\U{00C4}' => "A\U{0308}"
    case '\U{00D6}' => "O\U{0308}"
    case '\U{00DC}' => "U\U{0308}"
    case '\U{00E0}' => "a\U{0300}"
    case '\U{00E1}' => "a\U{0301}"
    case '\U{00E8}' => "e\U{0300}"
    case '\U{00E9}' => "e\U{0301}"
    case '\U{00C9}' => "E\U{0301}"
    case '\U{00F1}' => "n\U{0303}"
    case '\U{00E7}' => "c\U{0327}"
    case _ => [c]
  }

  /** The characters that are not combining marks, in order. */
  function DropMarks(s: string): (r: string)
    ensures |r| <= |s|
    ensures forall j :: 0 <= j < |r| ==> !IsCombiningMark(r[j]) && r[j] in s
    ensures (forall j :: 0 <= j < |s| ==> !IsCombiningMark(s[j])) ==> r == s
  {
    if s == [] then [] else (if IsCombiningMark(s[0]) then [] else [s[0]]) + DropMarks(s[1..])
  }

  /** Dropping marks is a filter: it works piecewise over a concatenation, so the survivors keep their order. */
  lemma {:induction false} DropMarksAppend(a: string, b: string)
    ensures DropMarks(a + b) == DropMarks(a) + DropMarks(b)
  {
    if a != [] {
      var head := if IsCombiningMark(a[0]) then [] else [a[0]];
      assert (a + b)[0] == a[0] && (a + b)[1..] == a[1..] + b;
      assert DropMarks(a + b) == head + DropMarks(a[1..] + b);
      DropMarksAppend(a[1..], b);
      assert DropMarks(a) == head + DropMarks(a[1..]);
    } else {
      assert a + b == b;
    }
  }

  /** Every character other than a combining mark keeps its number of occurrences; marks have none left. */
  lemma {:induction false} DropMarksCounts(s: string, c: char)
    ensures multiset(DropMarks(s))[c] == if IsCombiningMark(c) then 0 else multiset(s)[c]
  {
    if s != [] {
      var head := if IsCombiningMark(s[0]) then [] else [s[0]];
      assert DropMarks(s) == head + DropMarks(s[1..]);
      DropMarksCounts(s[1..], c);
      assert s == [s[0]] + s[1..];
      assert multiset(s) == multiset([s[0]]) + multiset(s[1..]);
      assert multiset(DropMarks(s)) == multiset(head) + multiset(DropMarks(s[1..]));
    }
  }

  /** A base character followed only by combining marks keeps just the base character. */
  lemma {:induction false} DropMarksOfDecomposition(d: string)
    requires |d| >= 1 && !IsCombiningMark(d[0])
    requires forall j :: 1 <= j < |d| ==> IsCombiningMark(d[j])
    ensures DropMarks(d) == [d[0]]
  {
    MarksOnly(d[1..]);
  }

  lemma {:induction false} MarksOnly(s: string)
    requires forall j :: 0 <= j < |s| ==> IsCombiningMark(s[j])
    ensures DropMarks(s) == []
  {
    if s != [] {
      MarksOnly(s[1..]);
    }
  }

  /** `NFD` followed by dropping every combining mark. */
  function StripAccents(word: string): (r: string)
    ensures forall j :: 0 <= j < |r| ==> !IsCombiningMark(r[j])
    ensures ' ' !in word ==> ' ' !in r
    ensures (forall j :: 0 <= j < |word| ==> word[j] < '\U{0080}') ==> r == word
    ensures (forall j :: 0 <= j < |word| ==> IsCombiningMark(word[j])) ==> r == []
  {
    if word == [] then [] else DropMarks(Decompose(word[0])) + StripAccents(word[1..])
  }

  /** Combining marks already in the input are dropped: stripping sees only the other characters. */
  lemma {:induction false} StripAccentsIgnoresMarks(word: string)
    ensures StripAccents(word) == StripAccents(DropMarks(word))
  {
    if word != [] {
      StripAccentsIgnoresMarks(word[1..]);
      var rest := DropMarks(word[1..]);
      if IsCombiningMark(word[0]) {
        assert DropMarks(word) == rest;
        assert DropMarks(Decompose(word[0])) == [] by {
          assert DropMarks([word[0]]) == [] + DropMarks([word[0]][1..]);
        }
      } else {
        assert DropMarks(word) == [word[0]] + rest;
        var w := [word[0]] + rest;
        assert w[0] == word[0] && w[1..] == rest;
      }
    }
  }

  /**
   * Accent stripping of any text: the characters other than combining marks, each replaced
   * by the base character of its decomposition, in order.
   */
  lemma StripAccentsOfAnyText(word: string)
    ensures var kept := DropMarks(word);
            && |StripAccents(word)| == |kept|
            && forall j :: 0 <= j < |kept| ==> StripAccents(word)[j] == Decompose(kept[j])[0]
  {
    StripAccentsIgnoresMarks(word);
    StripAccentsBaseLetters(DropMarks(word));
  }

  /**
   * On text without combining marks, accent stripping replaces every character by the
   * base character of its decomposition: an accented letter keeps its letter, and
   * nothing is dropped or added.
   */
  lemma {:induction false} StripAccentsBaseLetters(word: string)
    requires forall j :: 0 <= j < |word| ==> !IsCombiningMark(word[j])
    ensures |StripAccents(word)| == |word|
    ensures forall j :: 0 <= j < |word| ==> StripAccents(word)[j] == Decompose(word[j])[0]
  {
    if word != [] {
      StripAccentsBaseLetters(word[1..]);
      DropMarksOfDecomposition(Decompose(word[0]));
      var r := StripAccents(word);
      assert r == [Decompose(word[0])[0]] + StripAccents(word[1..]);
      forall j | 0 <= j < |word|
        ensures r[j] == Decompose(word[j])[0]
      {
        if j > 0 {
          assert r[j] == StripAccents(word[1..])[j - 1] && word[j] == word[1..][j - 1];
        }
      }
    }
  }

  function LowerChar(c: char): char
  {
    if 'A' <= c <= 'Z' then (c as int + 32) as char else c
  }

  /** ASCII lowercasing: every upper-case letter becomes its lower-case letter, every other character stays. */
  function Lower(word: string): (r: string)
    ensures |r| == |word|
    ensures forall j :: 0 <= j < |r| ==> !('A' <= r[j] <= 'Z')
    ensures forall j :: 0 <= j < |word| && 'A' <= word[j] <= 'Z' ==>
              'a' <= r[j] <= 'z' && r[j] as int - 'a' as int == word[j] as int - 'A' as int
    ensures forall j :: 0 <= j < |word| && !('A' <= word[j] <= 'Z') ==> r[j] == word[j]
    ensures ' ' !in word ==> ' ' !in r
  {
    seq(|word|, j requires 0 <= j < |word| => LowerChar(word[j]))
  }

  datatype BertPreEncoder = BertPreEncoder(lowercase: bool, stripAccents: bool)

  function Normalize(pe: BertPreEncoder, word: string): (r: string)
    ensures ' ' !in word ==> ' ' !in r
    ensures word == [] ==> r == []
  {
    var lowered := if pe.lowercase then Lower(word) else word;
    if pe.stripAccents then StripAccents(lowered) else lowered
  }

  predicate IsolatedPunctuation(g: string)
  {
    |g| == 1 && IsPunctuation(g[0])
  }

  predicate PunctuationFree(g: string)
  {
    forall j :: 0 <= j < |g| ==> !IsPunctuation(g[j])
  }

  /** A word of the pre-encoder's output: non-empty, and either one punctuation mark or none. */
  predicate WellFormedWord(g: string)
  {
    g != [] && (IsolatedPunctuation(g) || PunctuationFree(g))
  }

  function Concat(groups: seq<string>): string
  {
    if groups == [] then [] else Concat(groups[..|groups| - 1]) + groups[|groups| - 1]
  }

  lemma ConcatSnoc(groups: seq<string>, g: string)
    ensures Concat(groups + [g]) == Concat(groups) + g
  {
    assert (groups + [g])[..|groups|] == groups;
  }

  /**
   * Splitting a token on punctuation, character by character: a punctuation mark is a
   * group of its own and starts a new group after it; other characters extend the
   * current group.
   */
  function SplitOnPunctuation(token: string): (groups: seq<string>)
    ensures token != [] ==>
              && groups != [] && groups[|groups| - 1] != []
              && groups[|groups| - 1][|groups[|groups| - 1]| - 1] == token[|token| - 1]
    decreases |token|
  {
    if token == [] then []
    else
      var init, c := token[..|token| - 1], token[|token| - 1];
      var groups := SplitOnPunctuation(init);
      if IsPunctuation(c) || init == [] || IsPunctuation(init[|init| - 1]) then
        groups + [[c]]
      else
        groups[..|groups| - 1] + [groups[|groups| - 1] + [c]]
  }

  /**
   * The groups are well-formed words and, read in order, spell out the token: a
   * punctuation mark never shares a group, and nothing is lost or reordered.
   */
  lemma {:induction false} SplitOnPunctuationSound(token: string)
    ensures Concat(SplitOnPunctuation(token)) == token
    ensures forall k :: 0 <= k < |SplitOnPunctuation(token)| ==> WellFormedWord(SplitOnPunctuation(token)[k])
  {
    SplitOnPunctuationSpells(token);
    SplitOnPunctuationWellFormed(token);
  }

  lemma {:induction false} SplitOnPunctuationSpells(token: string)
    ensures Concat(SplitOnPunctuation(token)) == token
    decreases |token|
  {
    if token != [] {
      var init, c := token[..|token| - 1], token[|token| - 1];
      assert init + [c] == token;
      SplitOnPunctuationSpells(init);
      var groups := SplitOnPunctuation(init);
      SplitOnPunctuationStep(init, c);
      if IsPunctuation(c) || init == [] || IsPunctuation(init[|init| - 1]) {
        ConcatSnoc(groups, [c]);
      } else {
        var pre, last := groups[..|groups| - 1], groups[|groups| - 1];
        assert pre + [last] == groups;
        ConcatSnoc(pre, last);
        ConcatSnoc(pre, last + [c]);
      }
    }
  }

  lemma {:induction false} SplitOnPunctuationWellFormed(token: string)
    ensures forall k :: 0 <= k < |SplitOnPunctuation(token)| ==> WellFormedWord(SplitOnPunctuation(token)[k])
    decreases |token|
  {
    if token != [] {
      var init, c := token[..|token| - 1], token[|token| - 1];
      assert init + [c] == token;
      SplitOnPunctuationWellFormed(init);
      var groups, next := SplitOnPunctuation(init), SplitOnPunctuation(token);
      SplitOnPunctuationStep(init, c);
      if IsPunctuation(c) || init == [] || IsPunctuation(init[|init| - 1]) {
        assert next == groups + [[c]];
        forall k | 0 <= k < |next|
          ensures WellFormedWord(next[k])
        {
          if k < |groups| {
            assert next[k] == groups[k];
          } else {
            assert next[k] == [c];
          }
        }
      } else {
        var last := groups[|groups| - 1];
        assert next == groups[..|groups| - 1] + [last + [c]];
        assert WellFormedWord(last) && !IsPunctuation(last[|last| - 1]);
        assert PunctuationFree(last + [c]);
        forall k | 0 <= k < |next|
          ensures WellFormedWord(next[k])
        {
          if k < |groups| - 1 {
            assert next[k] == groups[k];
          } else {
            assert next[k] == last + [c];
          }
        }
      }
    }
  }

  /** Every group is made of the token's characters, so it avoids whatever the token avoids. */
  lemma {:induction false} SplitOnPunctuationAvoids(token: string, x: char)
    requires x !in token
    ensures forall k :: 0 <= k < |SplitOnPunctuation(token)| ==> x !in SplitOnPunctuation(token)[k]
    decreases |token|
  {
    if token != [] {
      var init := token[..|token| - 1];
      SplitOnPunctuationAvoids(init, x);
      assert forall j :: 0 <= j < |init| ==> init[j] == token[j];
    }
  }

  /** One step of the character loop: what appending character c does to the groups. */
  lemma SplitOnPunctuationStep(init: string, c: char)
    ensures var groups := SplitOnPunctuation(init);
            SplitOnPunctuation(init + [c]) ==
              if IsPunctuation(c) || init == [] || IsPunctuation(init[|init| - 1]) then groups + [[c]]
              else groups[..|groups| - 1] + [groups[|groups| - 1] + [c]]
  {
    assert (init + [c])[..|init|] == init;
  }

  /** A run of non-punctuation after a group boundary becomes one more group. */
  lemma {:induction false} SplitOnPunctuationRun(a: string, b: string)
    requires a == [] || IsPunctuation(a[|a| - 1])
    requires b != [] && PunctuationFree(b)
    ensures SplitOnPunctuation(a + b) == SplitOnPunctuation(a) + [b]
    decreases |b|
  {
    var b', c := b[..|b| - 1], b[|b| - 1];
    assert a + b == (a + b') + [c] && b' + [c] == b;
    SplitOnPunctuationStep(a + b', c);
    if |b| > 1 {
      SplitOnPunctuationRun(a, b');
      assert (a + b')[|a + b'| - 1] == b'[|b'| - 1];
      assert (SplitOnPunctuation(a) + [b'])[..|SplitOnPunctuation(a)|] == SplitOnPunctuation(a);
    }
  }

  /** Groups in which no two punctuation-free groups are adjacent. */
  predicate Canonical(groups: seq<string>)
  {
    && (forall k :: 0 <= k < |groups| ==> WellFormedWord(groups[k]))
    && (forall k :: 0 < k < |groups| && PunctuationFree(groups[k]) ==> IsolatedPunctuation(groups[k - 1]))
  }

  /** Splitting the concatenation of canonical groups gives back exactly those groups. */
  lemma {:induction false} SplitOnPunctuationConcat(groups: seq<string>)
    requires Canonical(groups)
    ensures SplitOnPunctuation(Concat(groups)) == groups
  {
    if groups != [] {
      var init, g := groups[..|groups| - 1], groups[|groups| - 1];
      assert Canonical(init);
      SplitOnPunctuationConcat(init);
      assert init + [g] == groups;
      if IsolatedPunctuation(g) {
        ConcatThenPunctuation(init, g);
      } else {
        ConcatThenRun(init, g);
      }
    }
  }

  /**
   * Splitting always yields canonical groups: a run of non-punctuation is never cut in
   * two, so with SplitOnPunctuationConcat the split is the only canonical grouping of a token.
   */
  lemma {:induction false} SplitOnPunctuationCanonical(token: string)
    ensures Canonical(SplitOnPunctuation(token))
    decreases |token|
  {
    if token != [] {
      var init, c := token[..|token| - 1], token[|token| - 1];
      assert init + [c] == token;
      SplitOnPunctuationCanonical(init);
      SplitOnPunctuationStep(init, c);
      if IsPunctuation(c) || init == [] || IsPunctuation(init[|init| - 1]) {
        if init != [] {
          LastGroupKind(init);
        }
        CanonicalSnoc(SplitOnPunctuation(init), [c]);
      } else {
        LastGroupKind(init);
        CanonicalExtendLast(SplitOnPunctuation(init), c);
      }
    }
  }

  /** The last group is a lone punctuation mark exactly when the token ends in punctuation. */
  lemma LastGroupKind(token: string)
    requires token != []
    ensures var groups := SplitOnPunctuation(token);
            && groups != []
            && (IsPunctuation(token[|token| - 1]) ==> IsolatedPunctuation(groups[|groups| - 1]))
            && (!IsPunctuation(token[|token| - 1]) ==> PunctuationFree(groups[|groups| - 1]))
  {
    SplitOnPunctuationWellFormed(token);
    var groups := SplitOnPunctuation(token);
    assert WellFormedWord(groups[|groups| - 1]);
  }

  /** A new group keeps groups canonical unless it is a second punctuation-free group in a row. */
  lemma CanonicalSnoc(groups: seq<string>, g: string)
    requires Canonical(groups) && WellFormedWord(g)
    requires PunctuationFree(g) && groups != [] ==> IsolatedPunctuation(groups[|groups| - 1])
    ensures Canonical(groups + [g])
  {
    var next := groups + [g];
    assert forall k :: 0 <= k < |groups| ==> next[k] == groups[k];
  }

  /** Extending a punctuation-free last group by a non-punctuation character keeps groups canonical. */
  lemma CanonicalExtendLast(groups: seq<string>, c: char)
    requires Canonical(groups) && groups != [] && PunctuationFree(groups[|groups| - 1])
    requires !IsPunctuation(c)
    ensures Canonical(groups[..|groups| - 1] + [groups[|groups| - 1] + [c]])
  {
    var last := groups[|groups| - 1];
    var next := groups[..|groups| - 1] + [last + [c]];
    assert PunctuationFree(last + [c]);
    assert forall k :: 0 <= k < |groups| - 1 ==> next[k] == groups[k];
  }

  lemma ConcatThenPunctuation(init: seq<string>, g: string)
    requires SplitOnPunctuation(Concat(init)) == init
    requires IsolatedPunctuation(g)
    ensures SplitOnPunctuation(Concat(init + [g])) == init + [g]
  {
    var a := Concat(init);
    ConcatSnoc(init, g);
    assert a + g == a + [g[0]];
    SplitOnPunctuationStep(a, g[0]);
  }

  lemma ConcatThenRun(init: seq<string>, g: string)
    requires SplitOnPunctuation(Concat(init)) == init
    requires g != [] && PunctuationFree(g)
    requires init == [] || IsolatedPunctuation(init[|init| - 1])
    ensures SplitOnPunctuation(Concat(init + [g])) == init + [g]
  {
    var a := Concat(init);
    ConcatSnoc(init, g);
    if init != [] {
      var pre, p := init[..|init| - 1], init[|init| - 1];
      assert pre + [p] == init;
      ConcatSnoc(pre, p);
      assert a[|a| - 1] == p[0];
    }
    SplitOnPunctuationRun(a, g);
  }

  /** The words of a text: each space-separated field normalized and split on punctuation. */
  function Words(pe: BertPreEncoder, fields: seq<string>): (words: seq<string>)
    requires forall k :: 0 <= k < |fields| ==> ' ' !in fields[k]
    ensures forall k :: 0 <= k < |words| ==> WellFormedWord(words[k]) && ' ' !in words[k]
    decreases |fields|
  {
    if fields == [] then []
    else
      var groups := SplitOnPunctuation(Normalize(pe, fields[0]));
      SplitOnPunctuationSound(Normalize(pe, fields[0]));
      SplitOnPunctuationAvoids(Normalize(pe, fields[0]), ' ');
      groups + Words(pe, fields[1..])
  }

  function PreEncodeText(pe: BertPreEncoder, text: string): (out: string)
    ensures text == [] ==> out == []
  {
    assert text == [] ==> Words(pe, Split(text, ' ')) == [];
    Join(Words(pe, Split(text, ' ')), ' ')
  }

  /** `BertPreEncoder.__call__`: one normalized string per input string, in order. */
  function PreEncode(pe: BertPreEncoder, input: seq<string>): (output: seq<string>)
    ensures |output| == |input|
    ensures forall i :: 0 <= i < |input| && input[i] == [] ==> output[i] == []
  {
    seq(|input|, i requires 0 <= i < |input| => PreEncodeText(pe, input[i]))
  }

  /**
   * The pre-encoder separates words by single spaces, with none at either end, and every
   * punctuation mark stands alone as a word.
   */
  lemma PreEncodeIsolatesPunctuation(pe: BertPreEncoder, text: string)
    ensures var out := PreEncodeText(pe, text);
            var fields := Split(out, ' ');
            out == [] || forall k :: 0 <= k < |fields| ==> WellFormedWord(fields[k])
    ensures var out := PreEncodeText(pe, text);
            out == [] || (out[0] != ' ' && out[|out| - 1] != ' ')
  {
    var words := Words(pe, Split(text, ' '));
    var out := Join(words, ' ');
    if words != [] {
      SplitJoin(words, ' ');
      SplitEdges(out, ' ');
    }
  }

  /** The groups of every field, in field order. */
  function Flatten(groupsOfFields: seq<seq<string>>): seq<string>
  {
    if groupsOfFields == [] then [] else groupsOfFields[0] + Flatten(groupsOfFields[1..])
  }

  /** Field by field, the words are the canonical groups of the normalized field. */
  lemma {:induction false} WordsOfFields(pe: BertPreEncoder, fields: seq<string>, groupsOfFields: seq<seq<string>>)
    requires forall k :: 0 <= k < |fields| ==> ' ' !in fields[k]
    requires |groupsOfFields| == |fields|
    requires forall k :: 0 <= k < |fields| ==>
               Canonical(groupsOfFields[k]) && Concat(groupsOfFields[k]) == Normalize(pe, fields[k])
    ensures Words(pe, fields) == Flatten(groupsOfFields)
  {
    if fields != [] {
      SplitOnPunctuationConcat(groupsOfFields[0]);
      WordsOfFields(pe, fields[1..], groupsOfFields[1..]);
    }
  }

  /**
   * The pre-encoder on any text, written as its space-separated fields: the output is
   * the canonical punctuation groups of every normalized field, in order, joined by
   * single spaces (an empty field, or one that normalizes to nothing, contributes no word).
   */
  lemma PreEncodeFields(pe: BertPreEncoder, text: string, fields: seq<string>, groupsOfFields: seq<seq<string>>)
    requires |fields| >= 1 && text == Join(fields, ' ')
    requires forall k :: 0 <= k < |fields| ==> ' ' !in fields[k]
    requires |groupsOfFields| == |fields|
    requires forall k :: 0 <= k < |fields| ==>
               Canonical(groupsOfFields[k]) && Concat(groupsOfFields[k]) == Normalize(pe, fields[k])
    ensures PreEncode(pe, [text]) == [Join(Flatten(groupsOfFields), ' ')]
  {
    SplitJoin(fields, ' ');
    WordsOfFields(pe, fields, groupsOfFields);
    assert PreEncodeText(pe, text) == Join(Words(pe, fields), ' ');
  }

  /**
   * The pre-encoder on one space-free field whose normalized form splits into known
   * punctuation groups: the output is those groups joined by single spaces.
   */
  lemma PreEncodeField(pe: BertPreEncoder, text: string, groups: seq<string>)
    requires ' ' !in text
    requires Canonical(groups) && Concat(groups) == Normalize(pe, text)
    ensures PreEncode(pe, [text]) == [Join(groups, ' ')]
  {
    assert Join([text], ' ') == text;
    assert Flatten([groups]) == groups by {
      assert [groups][1..] == [];
    }
    PreEncodeFields(pe, text, [text], [groups]);
  }

  /** On plain ASCII text without lowercasing, normalization changes nothing. */
  lemma PreEncodeAsciiField(pe: BertPreEncoder, text: string, groups: seq<string>)
    requires !pe.lowercase
    requires ' ' !in text && forall j :: 0 <= j < |text| ==> text[j] < '\U{0080}'
    requires Canonical(groups) && Concat(groups) == text
    ensures PreEncode(pe, [text]) == [Join(groups, ' ')]
  {
    assert Normalize(pe, text) == text;
    PreEncodeField(pe, text, groups);
  }

  /** Accent stripping works character by character, so it distributes over concatenation. */
  lemma {:induction false} StripAccentsAppend(a: string, b: string)
    ensures StripAccents(a + b) == StripAccents(a) + StripAccents(b)
  {
    if a != [] {
      assert (a + b)[0] == a[0] && (a + b)[1..] == a[1..] + b;
      StripAccentsAppend(a[1..], b);
    } else {
      assert a + b == b;
    }
  }

  /** The pre-encoder examples of the BERT tokenizer tests. */
  lemma PreEncoderExampleInnerHyphen()
    ensures PreEncode(BertPreEncoder(false, true), ["AWO-Mitarbeiter"]) == ["AWO - Mitarbeiter"]
  {
    InnerHyphenCanonical();
    InnerHyphenConcat();
    InnerHyphenJoin();
    InnerHyphenText();
    PreEncodeAsciiField(BertPreEncoder(false, true), "AWO-Mitarbeiter", ["AWO", "-", "Mitarbeiter"]);
  }

  lemma InnerHyphenText()
    ensures ' ' !in "AWO-Mitarbeiter" && forall j :: 0 <= j < |"AWO-Mitarbeiter"| ==> "AWO-Mitarbeiter"[j] < '\U{0080}'
  {
  }

  lemma InnerHyphenCanonical()
    ensures Canonical(["AWO", "-", "Mitarbeiter"])
  {
    var groups := ["AWO", "-", "Mitarbeiter"];
    assert PunctuationFree(groups[0]) && IsolatedPunctuation(groups[1]) && PunctuationFree(groups[2]);
  }

  lemma InnerHyphenConcat()
    ensures Concat(["AWO", "-", "Mitarbeiter"]) == "AWO-Mitarbeiter"
  {
    assert Concat(["AWO"]) == "AWO" by { assert ["AWO"][..0] == []; }
    ConcatSnoc(["AWO"], "-");
    assert ["AWO"] + ["-"] == ["AWO", "-"];
    ConcatSnoc(["AWO", "-"], "Mitarbeiter");
    assert ["AWO", "-"] + ["Mitarbeiter"] == ["AWO", "-", "Mitarbeiter"];
  }

  lemma InnerHyphenJoin()
    ensures Join(["AWO", "-", "Mitarbeiter"], ' ') == "AWO - Mitarbeiter"
  {
    JoinCons("-", ["Mitarbeiter"], ' ');
    assert ["-"] + ["Mitarbeiter"] == ["-", "Mitarbeiter"];
    JoinCons("AWO", ["-", "Mitarbeiter"], ' ');
    assert ["AWO"] + ["-", "Mitarbeiter"] == ["AWO", "-", "Mitarbeiter"];
  }

  lemma PreEncoderExampleLeadingHyphen()
    ensures PreEncode(BertPreEncoder(false, true), ["-Mitarbeiter"]) == ["- Mitarbeiter"]
  {
    LeadingHyphenGroups();
    LeadingHyphenJoin();
    PreEncodeAsciiField(BertPreEncoder(false, true), "-Mitarbeiter", ["-", "Mitarbeiter"]);
  }

  lemma LeadingHyphenJoin()
    ensures Join(["-", "Mitarbeiter"], ' ') == "- Mitarbeiter"
  {
    JoinCons("-", ["Mitarbeiter"], ' ');
    assert ["-"] + ["Mitarbeiter"] == ["-", "Mitarbeiter"];
    assert Join(["Mitarbeiter"], ' ') == "Mitarbeiter";
  }

  lemma LeadingHyphenGroups()
    ensures Canonical(["-", "Mitarbeiter"]) && Concat(["-", "Mitarbeiter"]) == "-Mitarbeiter"
  {
    var groups := ["-", "Mitarbeiter"];
    assert IsolatedPunctuation(groups[0]) && PunctuationFree(groups[1]);
    assert Concat(["-"]) == "-" by { assert ["-"][..0] == []; }
    ConcatSnoc(["-"], "Mitarbeiter");
    assert ["-"] + ["Mitarbeiter"] == groups;
  }

  lemma PreEncoderExampleTrailingHyphen()
    ensures PreEncode(BertPreEncoder(false, true), ["AWO-"]) == ["AWO -"]
  {
    var groups := ["AWO", "-"];
    assert Canonical(groups) by {
      assert PunctuationFree(groups[0]) && IsolatedPunctuation(groups[1]);
    }
    assert Concat(groups) == "AWO-" by {
      assert Concat(["AWO"]) == "AWO" by { assert ["AWO"][..0] == []; }
      ConcatSnoc(["AWO"], "-");
      assert ["AWO"] + ["-"] == groups;
    }
    assert Join(groups, ' ') == "AWO -" by {
      JoinCons("AWO", ["-"], ' ');
    }
    PreEncodeAsciiField(BertPreEncoder(false, true), "AWO-", groups);
  }

  lemma PreEncoderExampleLoneHyphenAndEmpty()
    ensures PreEncode(BertPreEncoder(false, true), ["-"]) == ["-"]
    ensures PreEncode(BertPreEncoder(false, true), [""]) == [""]
  {
    assert Canonical(["-"]) by {
      assert IsolatedPunctuation("-");
    }
    assert Concat(["-"]) == "-" by { assert ["-"][..0] == []; }
    PreEncodeAsciiField(BertPreEncoder(false, true), "-", ["-"]);
  }

  lemma PreEncoderExamplePeriods()
    ensures PreEncode(BertPreEncoder(false, true), ["Mw.-St."]) == ["Mw . - St ."]
  {
    PeriodsGroups();
    PeriodsJoin();
    PreEncodeAsciiField(BertPreEncoder(false, true), "Mw.-St.", ["Mw", ".", "-", "St", "."]);
  }

  lemma PeriodsGroups()
    ensures Canonical(["Mw", ".", "-", "St", "."])
    ensures Concat(["Mw", ".", "-", "St", "."]) == "Mw.-St."
  {
    PeriodsCanonical();
    PeriodsConcat();
  }

  lemma PeriodsCanonical()
    ensures Canonical(["Mw", ".", "-", "St", "."])
  {
    var groups := ["Mw", ".", "-", "St", "."];
    assert PunctuationFree(groups[0]) && IsolatedPunctuation(groups[1]) && IsolatedPunctuation(groups[2]);
    assert PunctuationFree(groups[3]) && IsolatedPunctuation(groups[4]);
  }

  lemma PeriodsConcat()
    ensures Concat(["Mw", ".", "-", "St", "."]) == "Mw.-St."
  {
    assert Concat(["Mw"]) == "Mw" by { assert ["Mw"][..0] == []; }
    ConcatSnoc(["Mw"], ".");
    assert ["Mw"] + ["."] == ["Mw", "."];
    ConcatSnoc(["Mw", "."], "-");
    assert ["Mw", "."] + ["-"] == ["Mw", ".", "-"];
    assert Concat(["Mw", ".", "-"]) == "Mw.-";
    ConcatSnoc(["Mw", ".", "-"], "St");
    assert ["Mw", ".", "-"] + ["St"] == ["Mw", ".", "-", "St"];
    assert Concat(["Mw", ".", "-", "St"]) == "Mw.-St";
    ConcatSnoc(["Mw", ".", "-", "St"], ".");
    assert ["Mw", ".", "-", "St"] + ["."] == ["Mw", ".", "-", "St", "."];
  }

  lemma PeriodsJoin()
    ensures Join(["Mw", ".", "-", "St", "."], ' ') == "Mw . - St ."
  {
    JoinCons("St", ["."], ' ');
    assert ["St"] + ["."] == ["St", "."];
    JoinCons("-", ["St", "."], ' ');
    assert ["-"] + ["St", "."] == ["-", "St", "."];
    JoinCons(".", ["-", "St", "."], ' ');
    assert ["."] + ["-", "St", "."] == [".", "-", "St", "."];
    JoinCons("Mw", [".", "-", "St", "."], ' ');
    assert ["Mw"] + [".", "-", "St", "."] == ["Mw", ".", "-", "St", "."];
  }

  lemma PreEncoderExampleUmlaut()
    ensures PreEncode(BertPreEncoder(false, true), ["Br\U{00F6}tchen"]) == ["Brotchen"]
  {
    BrotchenNormalized();
    BrotchenGroups();
    PreEncodeField(BertPreEncoder(false, true), "Br\U{00F6}tchen", ["Brotchen"]);
  }

  lemma BrotchenGroups()
    ensures Canonical(["Brotchen"]) && Concat(["Brotchen"]) == "Brotchen"
  {
    assert PunctuationFree("Brotchen");
    assert ["Brotchen"][..0] == [];
  }

  lemma BrotchenNormalized()
    ensures ' ' !in "Br\U{00F6}tchen"
    ensures Normalize(BertPreEncoder(false, true), "Br\U{00F6}tchen") == "Brotchen"
  {
    var a, o, b := "Br", "\U{00F6}", "tchen";
    BrotchenPieces();
    StripAccentsAppend(a, o + b);
    StripAccentsAppend(o, b);
    StripUmlautO();
    StripAsciiParts();
    assert StripAccents(a + (o + b)) == a + ("o" + b);
  }

  lemma BrotchenPieces()
    ensures ' ' !in "Br\U{00F6}tchen"
    ensures "Br\U{00F6}tchen" == "Br" + ("\U{00F6}" + "tchen")
    ensures "Br" + ("o" + "tchen") == "Brotchen"
  {
  }

  lemma StripUmlautO()
    ensures StripAccents("\U{00F6}") == "o"
  {
    assert StripAccents("\U{00F6}") == DropMarks("o\U{0308}") + StripAccents([]);
    assert "o\U{0308}"[1..] == "\U{0308}";
    assert DropMarks("\U{0308}") == [] by { assert "\U{0308}"[1..] == []; }
  }

  lemma StripAsciiParts()
    ensures StripAccents("Br") == "Br" && StripAccents("tchen") == "tchen"
  {
    assert forall j :: 0 <= j < |"Br"| ==> "Br"[j] < '\U{0080}';
    assert forall j :: 0 <= j < |"tchen"| ==> "tchen"[j] < '\U{0080}';
  }

  /** A WordPiece continuation piece: it starts with `##` and attaches to the piece before it. */
  predicate IsContinuation(piece: string)
  {
    |piece| >= 2 && piece[0] == '#' && piece[1] == '#'
  }

  /**
   * WordPiece decoding of the pieces of one sequence: the first piece as it is, then
   * every continuation piece glued to the text so far without its `##`, and every other
   * piece after a space.
   */
  function JoinWordPieces(pieces: seq<string>): (text: string)
    ensures |pieces| == 1 ==> text == pieces[0]
  {
    if pieces == [] then []
    else
      var init, p := pieces[..|pieces| - 1], pieces[|pieces| - 1];
      if init == [] then p
      else if IsContinuation(p) then JoinWordPieces(init) + p[2..]
      else JoinWordPieces(init) + " " + p
  }

  /** The continuation pieces glued together, each without its `##`. */
  function Glued(continuations: seq<string>): string
    requires forall k :: 0 <= k < |continuations| ==> IsContinuation(continuations[k])
  {
    if continuations == [] then []
    else
      var last := continuations[|continuations| - 1];
      assert IsContinuation(last);
      Glued(continuations[..|continuations| - 1]) + last[2..]
  }

  /**
   * The WordPiece rule: a piece followed by continuation pieces decodes to the piece with
   * every continuation glued on, in order and without its `##`.
   */
  lemma {:induction false} JoinWordPiecesWord(head: string, continuations: seq<string>)
    requires forall k :: 0 <= k < |continuations| ==> IsContinuation(continuations[k])
    ensures JoinWordPieces([head] + continuations) == head + Glued(continuations)
    decreases |continuations|
  {
    if continuations != [] {
      var init, p := continuations[..|continuations| - 1], continuations[|continuations| - 1];
      assert [head] + continuations == ([head] + init) + [p];
      assert IsContinuation(p);
      assert Glued(continuations) == Glued(init) + p[2..];
      JoinWordPiecesWord(head, init);
      JoinWordPiecesSnoc([head] + init, p);
      assert JoinWordPieces([head] + continuations) == (head + Glued(init)) + p[2..];
    } else {
      assert [head] + continuations == [head];
    }
  }

  lemma JoinWordPiecesSnoc(init: seq<string>, p: string)
    requires init != []
    ensures JoinWordPieces(init + [p]) ==
              if IsContinuation(p) then JoinWordPieces(init) + p[2..] else JoinWordPieces(init) + " " + p
  {
    assert (init + [p])[..|init|] == init;
  }

  /** Without continuation pieces, WordPiece decoding is joining the pieces with single spaces. */
  lemma {:induction false} JoinWordPiecesPlain(pieces: seq<string>)
    requires forall k :: 0 <= k < |pieces| ==> !IsContinuation(pieces[k])
    ensures JoinWordPieces(pieces) == Join(pieces, ' ')
  {
    if |pieces| > 1 {
      var init, p := pieces[..|pieces| - 1], pieces[|pieces| - 1];
      assert init + [p] == pieces;
      JoinWordPiecesPlain(init);
      JoinWordPiecesSnoc(init, p);
      JoinSnoc(init, p, ' ');
    } else if |pieces| == 1 {
      assert Join(pieces, ' ') == pieces[0];
    }
  }

  /**
   * A piece that is not a continuation starts a new word: decoding two runs of pieces is
   * decoding each and separating them by one space.
   */
  lemma {:induction false} JoinWordPiecesAppend(a: seq<string>, b: seq<string>)
    requires a != [] && b != [] && !IsContinuation(b[0])
    ensures JoinWordPieces(a + b) == JoinWordPieces(a) + " " + JoinWordPieces(b)
    decreases |b|
  {
    var init, p := b[..|b| - 1], b[|b| - 1];
    assert a + b == (a + init) + [p] && init + [p] == b;
    if init == [] {
      JoinWordPiecesSnoc(a, p);
    } else {
      JoinWordPiecesAppend(a, init);
      JoinWordPiecesSnoc(a + init, p);
      JoinWordPiecesSnoc(init, p);
    }
  }

  /** The punctuation marks the clean-up pulls onto the preceding word. */
  predicate IsCleanedMark(c: char)
  {
    c == '.' || c == ',' || c == '!' || c == '?'
  }

  /** The decoder's clean-up: every space directly followed by `.`, `,`, `!` or `?` is dropped. */
  function CleanUp(s: string): (r: string)
    ensures |r| <= |s|
  {
    if s == [] then []
    else if |s| >= 2 && s[0] == ' ' && IsCleanedMark(s[1]) then CleanUp(s[1..])
    else [s[0]] + CleanUp(s[1..])
  }

  /** The characters of a string other than spaces, in order. */
  function NonSpace(s: string): string
  {
    if s == [] then [] else (if s[0] == ' ' then [] else [s[0]]) + NonSpace(s[1..])
  }

  lemma {:induction false} NonSpaceAppend(a: string, b: string)
    ensures NonSpace(a + b) == NonSpace(a) + NonSpace(b)
  {
    if a != [] {
      assert (a + b)[0] == a[0] && (a + b)[1..] == a[1..] + b;
      NonSpaceAppend(a[1..], b);
    } else {
      assert a + b == b;
    }
  }

  /** The clean-up only ever removes spaces: every other character survives, in order. */
  lemma {:induction false} CleanUpRemovesOnlySpaces(s: string)
    ensures NonSpace(CleanUp(s)) == NonSpace(s)
  {
    if s != [] {
      CleanUpRemovesOnlySpaces(s[1..]);
      if !(|s| >= 2 && s[0] == ' ' && IsCleanedMark(s[1])) {
        NonSpaceAppend([s[0]], CleanUp(s[1..]));
        assert [s[0]][1..] == [];
      }
    }
  }

  /** Text without any of the cleaned marks is left alone. */
  lemma {:induction false} CleanUpWithoutMarks(s: string)
    requires forall k :: 0 <= k < |s| ==> !IsCleanedMark(s[k])
    ensures CleanUp(s) == s
  {
    if s != [] {
      CleanUpWithoutMarks(s[1..]);
    }
  }

  /** The clean-up works locally, so it can be split at any point not right after a space. */
  lemma {:induction false} CleanUpAppend(a: string, b: string)
    requires a == [] || a[|a| - 1] != ' '
    ensures CleanUp(a + b) == CleanUp(a) + CleanUp(b)
  {
    if a != [] {
      assert (a + b)[0] == a[0] && (a + b)[1..] == a[1..] + b;
      if |a| >= 2 {
        assert (a + b)[1] == a[1];
      }
      CleanUpAppend(a[1..], b);
    } else {
      assert a + b == b;
    }
  }

  /** A run of words followed by a space and a mark: the space goes, the words stay as they are. */
  lemma CleanUpMarkAfterWords(words: string, mark: char, rest: string)
    requires words != [] && words[|words| - 1] != ' '
    requires forall k :: 0 <= k < |words| ==> !IsCleanedMark(words[k])
    requires IsCleanedMark(mark)
    ensures CleanUp(words + [' ', mark] + rest) == words + [mark] + CleanUp(rest)
  {
    assert words + [' ', mark] + rest == words + ([' ', mark] + rest);
    CleanUpAppend(words, [' ', mark] + rest);
    CleanUpWithoutMarks(words);
    assert ([' ', mark] + rest)[1..] == [mark] + rest;
    assert ([mark] + rest)[1..] == rest;
  }

  /** The vocabulary lookup of every id, or None when some id has no piece. */
  function IdsToPieces(vocab: map<int, string>, ids: seq<int>): (pieces: Option<seq<string>>)
    ensures pieces.Some? <==> forall k :: 0 <= k < |ids| ==> ids[k] in vocab
    ensures pieces.Some? ==> |pieces.value| == |ids| && forall k :: 0 <= k < |ids| ==> pieces.value[k] == vocab[ids[k]]
  {
    if forall k :: 0 <= k < |ids| ==> ids[k] in vocab
    then Some(seq(|ids|, k requires 0 <= k < |ids| => vocab[ids[k]]))
    else None
  }

  /**
   * `BertTokenizer.decode` on one sequence: the [CLS] and [SEP] ids are removed, the rest
   * looked up in the vocabulary, decoded as WordPiece and cleaned up. Decoding fails
   * exactly when some id other than the markers is missing from the vocabulary.
   */
  function Decode(vocab: map<int, string>, clsId: int, sepId: int, ids: seq<int>): (text: Option<string>)
    ensures text.Some? <==> forall k :: 0 <= k < |ids| && ids[k] != clsId && ids[k] != sepId ==> ids[k] in vocab
  {
    var kept := RemovePieces(ids, {clsId, sepId});
    match IdsToPieces(vocab, kept)
    case None => None
    case Some(pieces) => Some(CleanUp(JoinWordPieces(pieces)))
  }

  /**
   * Decoding a wrapped encoding whose ids the vocabulary maps back to its pieces: the
   * markers vanish and the pieces are decoded as WordPiece.
   */
  lemma DecodeWrapped(vocab: map<int, string>, clsId: int, sepId: int, ids: seq<int>, pieces: seq<string>)
    requires clsId !in ids && sepId !in ids
    requires |ids| == |pieces|
    requires forall k :: 0 <= k < |ids| ==> ids[k] in vocab && vocab[ids[k]] == pieces[k]
    ensures Decode(vocab, clsId, sepId, [clsId] + ids + [sepId]) == Some(CleanUp(JoinWordPieces(pieces)))
  {
    StripWrapped(ids, clsId, sepId);
    var found := IdsToPieces(vocab, ids);
    assert found.Some?;
    assert found.value == pieces;
  }
}
