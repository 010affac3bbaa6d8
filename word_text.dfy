/**
 * The text functions of word_finder_ui.py: the word list of a document,
 * the repeated non-filler candidates, the filler-word file, the regex
 * matches of a word and the one-span splice that replaces a match.
 * Unicode `str.lower`/`str.isalpha` are parameters, and regex matches come
 * in as spans per paragraph.
 */
module WordText {
  import opened Wrappers
  import opened Strings

  // ---------------------------------------------------------------------
  // Candidate words (`load_doc_words`)

  /** The alphabetic tokens, lower-cased, in order. */
  function LowerAlpha(tokens: seq<string>, lower: string -> string, isAlpha: string -> bool): seq<string>
  {
    if tokens == [] then []
    else (if isAlpha(tokens[0]) then [lower(tokens[0])] else []) + LowerAlpha(tokens[1..], lower, isAlpha)
  }

  /** The words are the lower-cased alphabetic tokens. */
  lemma {:induction false} LowerAlphaMembers(tokens: seq<string>, lower: string -> string, isAlpha: string -> bool, w: string)
    ensures w in LowerAlpha(tokens, lower, isAlpha) <==> exists t :: t in tokens && isAlpha(t) && w == lower(t)
    decreases |tokens|
  {
    if tokens != [] {
      LowerAlphaMembers(tokens[1..], lower, isAlpha, w);
      if exists t :: t in tokens && isAlpha(t) && w == lower(t) {
        var t :| t in tokens && isAlpha(t) && w == lower(t);
        if t != tokens[0] {
          assert t in tokens[1..];
        }
      }
      if exists t :: t in tokens[1..] && isAlpha(t) && w == lower(t) {
        var t :| t in tokens[1..] && isAlpha(t) && w == lower(t);
        assert t in tokens;
      }
    }
  }

  /** The words of a document: its paragraphs joined by spaces, split on whitespace. */
  function Words(paras: seq<string>, lower: string -> string, isAlpha: string -> bool): seq<string>
  {
    LowerAlpha(Tokens(Join(paras, " ")), lower, isAlpha)
  }

  /** The distinct elements of `s` in order of first occurrence — the key order of a `Counter`. */
  function Distinct(s: seq<string>): (d: seq<string>)
    ensures forall x :: x in d <==> x in s
    ensures forall i, j :: 0 <= i < j < |d| ==> d[i] != d[j]
  {
    if s == [] then []
    else
      var front := Distinct(s[..|s| - 1]);
      assert s == s[..|s| - 1] + [s[|s| - 1]];
      if s[|s| - 1] in front then front else front + [s[|s| - 1]]
  }

  /** A row of the word list: a word and its number of occurrences. */
  datatype WordCount = WordCount(word: string, count: nat)

  /**
   * The rows `load_doc_words` shows: for each distinct word, in first
   * occurrence order, with its count, when it occurs more than once and is
   * not a filler word.
   */
  function Candidates(keys: seq<string>, words: seq<string>, fillers: set<string>): seq<WordCount>
  {
    if keys == [] then []
    else
      var w := keys[|keys| - 1];
      var c := multiset(words)[w];
      Candidates(keys[..|keys| - 1], words, fillers) + (if c > 1 && w !in fillers then [WordCount(w, c)] else [])
  }

  lemma CandidatesSnoc(keys: seq<string>, i: nat, words: seq<string>, fillers: set<string>)
    requires i < |keys|
    ensures var w := keys[i]; var c := multiset(words)[w];
      Candidates(keys[..i + 1], words, fillers)
      == Candidates(keys[..i], words, fillers) + (if c > 1 && w !in fillers then [WordCount(w, c)] else [])
  {
    assert keys[..i + 1][..i] == keys[..i];
  }

  lemma {:induction false} CandidatesFromKeys(keys: seq<string>, words: seq<string>, fillers: set<string>)
    requires forall i, j :: 0 <= i < j < |keys| ==> keys[i] != keys[j]
    ensures var rows := Candidates(keys, words, fillers);
      && (forall r :: r in rows ==> r.word in keys && r.count == multiset(words)[r.word] > 1 && r.word !in fillers)
      && (forall w :: w in keys && multiset(words)[w] > 1 && w !in fillers ==> WordCount(w, multiset(words)[w]) in rows)
      && (forall i, j :: 0 <= i < j < |rows| ==> rows[i].word != rows[j].word)
    decreases |keys|
  {
    if keys != [] {
      var front := keys[..|keys| - 1];
      var w := keys[|keys| - 1];
      CandidatesFromKeys(front, words, fillers);
      assert keys == front + [w];
      assert w !in front;
    }
  }

  /**
   * The rows are exactly the words that occur more than once and are not
   * fillers, each once and with its count.
   */
  lemma CandidatesAreRepeatedNonFillers(words: seq<string>, fillers: set<string>)
    ensures var rows := Candidates(Distinct(words), words, fillers);
      && (forall w, c :: WordCount(w, c) in rows <==> w in words && c == multiset(words)[w] > 1 && w !in fillers)
      && (forall i, j :: 0 <= i < j < |rows| ==> rows[i].word != rows[j].word)
  {
    CandidatesFromKeys(Distinct(words), words, fillers);
  }

  // ---------------------------------------------------------------------
  // The filler-word file (`load_fuellwoerter`, `add_fuellwort`)

  /** The filler set read back from the file: each line stripped and lower-cased; empty when the file does not exist. */
  function LoadFillers(file: Option<string>, lower: string -> string): (fillers: set<string>)
    ensures file.None? ==> fillers == {}
  {
    match file
    case None => {}
    case Some(content) => FillerSet(Lines(content), lower)
  }

  function FillerSet(lines: seq<string>, lower: string -> string): (fillers: set<string>)
    ensures forall w :: w in fillers <==> exists l :: l in lines && w == lower(Strip(l))
  {
    set l | l in lines :: lower(Strip(l))
  }

  /** The file content after the word and a newline are appended; a missing file is created. */
  function AppendLine(file: Option<string>, word: string): string
  {
    (if file.Some? then file.value else "") + word + "\n"
  }

  /**
   * When the file is missing or ends with a newline, reading it back after
   * an append adds exactly the cleaned-up appended word.
   */
  lemma ReloadAfterAppend(file: Option<string>, word: string, lower: string -> string)
    requires '\n' !in word
    requires file.Some? ==> file.value == [] || file.value[|file.value| - 1] == '\n'
    ensures LoadFillers(Some(AppendLine(file, word)), lower)
         == LoadFillers(file, lower) + {lower(Strip(word + "\n"))}
  {
    var c := if file.Some? then file.value else "";
    LinesAppendLine(c, word);
    assert c + word + "\n" == AppendLine(file, word);
    FillerSetSnoc(Lines(c), word + "\n", lower);
    if file.None? {
      assert Lines(c) == [];
    }
  }

  lemma FillerSetSnoc(lines: seq<string>, l: string, lower: string -> string)
    ensures FillerSet(lines + [l], lower) == FillerSet(lines, lower) + {lower(Strip(l))}
  {
    forall w | w in FillerSet(lines + [l], lower)
      ensures w in FillerSet(lines, lower) + {lower(Strip(l))}
    {
      var m :| m in lines + [l] && w == lower(Strip(m));
      if m != l {
        assert m in lines;
      }
    }
    assert l in lines + [l];
  }

  /** The file content after each word of `words` is appended in turn. */
  function AppendAll(file: Option<string>, words: seq<string>): (r: Option<string>)
    ensures words != [] ==> r.Some? && r.value != [] && r.value[|r.value| - 1] == '\n'
    decreases |words|
  {
    if words == [] then file
    else Some(AppendLine(AppendAll(file, words[..|words| - 1]), words[|words| - 1]))
  }

  /**
   * Starting from a missing file or one that ends with a newline, every word
   * added in turn comes back stripped and lower-cased when the file is read
   * again, and nothing else is added.
   */
  lemma {:induction false} FillersAfterAppends(file: Option<string>, words: seq<string>, lower: string -> string)
    requires forall k :: 0 <= k < |words| ==> '\n' !in words[k]
    requires file.Some? ==> file.value == [] || file.value[|file.value| - 1] == '\n'
    ensures LoadFillers(AppendAll(file, words), lower)
         == LoadFillers(file, lower) + FillerSet(words, lower)
    decreases |words|
  {
    if words != [] {
      var front, last := words[..|words| - 1], words[|words| - 1];
      assert '\n' !in last;
      FillersAfterAppends(file, front, lower);
      ReloadAfterAppendAll(file, front, last, lower);
      FillerSetSnoc(front, last, lower);
      assert front + [last] == words;
    }
  }

  lemma ReloadAfterAppendAll(file: Option<string>, front: seq<string>, last: string, lower: string -> string)
    requires '\n' !in last
    requires file.Some? ==> file.value == [] || file.value[|file.value| - 1] == '\n'
    ensures LoadFillers(AppendAll(file, front + [last]), lower)
         == LoadFillers(AppendAll(file, front), lower) + {lower(Strip(last))}
  {
    var prev := AppendAll(file, front);
    assert (front + [last])[..|front|] == front;
    ReloadAfterAppend(prev, last, lower);
    StripIgnoresTrailingSpace(last, '\n');
  }

  /**
   * Without a final newline the appended word is glued onto the last line:
   * a file "foo" with "bar" appended reads back as the single word "foobar".
   */
  lemma AppendWithoutFinalNewlineMerges(lower: string -> string)
    ensures LoadFillers(Some(AppendLine(Some("foo"), "bar")), lower) == {lower(Strip("foobar\n"))}
  {
    assert '\n' !in "foobar";
    LinesAppendLine([], "foobar");
    assert AppendLine(Some("foo"), "bar") == [] + "foobar" + "\n" == "foobar\n";
    assert Lines([]) == [];
    assert "foobar" + "\n" == "foobar\n";
    var ls := Lines("foobar\n");
    assert ls == ["foobar\n"];
    var fs := FillerSet(ls, lower);
    assert lower(Strip("foobar\n")) in fs by {
      assert "foobar\n" in ls;
    }
    assert fs == {lower(Strip("foobar\n"))};
  }

  // ---------------------------------------------------------------------
  // Matches and the splice (`replace_word_in_docx`)

  /** One regex match within a paragraph. */
  datatype Span = Span(start: nat, end: nat)

  /** An entry of `matches`: paragraph index and span. */
  datatype Match = Match(para: nat, start: nat, end: nat)

  predicate SpansFit(paras: seq<string>, spans: seq<seq<Span>>)
  {
    |spans| == |paras|
    && forall p, k :: 0 <= p < |spans| && 0 <= k < |spans[p]| ==> spans[p][k].start <= spans[p][k].end <= |paras[p]|
  }

  /** The matches of paragraph `p`, in `finditer` order. */
  function ParaMatches(p: nat, ss: seq<Span>): (ms: seq<Match>)
    ensures |ms| == |ss| && forall k :: 0 <= k < |ss| ==> ms[k] == Match(p, ss[k].start, ss[k].end)
  {
    seq(|ss|, k requires 0 <= k < |ss| => Match(p, ss[k].start, ss[k].end))
  }

  /** `matches` after the nested loop: paragraph by paragraph, span by span. */
  function AllMatches(spans: seq<seq<Span>>): seq<Match>
  {
    if spans == [] then [] else AllMatches(spans[..|spans| - 1]) + ParaMatches(|spans| - 1, spans[|spans| - 1])
  }

  /** The last paragraph that has a match. */
  function LastMatchedPara(spans: seq<seq<Span>>): (r: Option<nat>)
    ensures r.Some? ==> r.value < |spans| && spans[r.value] != []
    ensures r.Some? ==> forall q :: r.value < q < |spans| ==> spans[q] == []
    ensures r.None? ==> forall q :: 0 <= q < |spans| ==> spans[q] == []
  {
    if spans == [] then None
    else if spans[|spans| - 1] != [] then Some(|spans| - 1)
    else LastMatchedPara(spans[..|spans| - 1])
  }

  /**
   * `matches[-1]` is the last span of the last paragraph that has a match,
   * and there is none exactly when no paragraph has a match.
   */
  lemma {:induction false} LastMatchIsLastSpanOfLastPara(spans: seq<seq<Span>>)
    ensures AllMatches(spans) == [] <==> LastMatchedPara(spans).None?
    ensures AllMatches(spans) != [] ==>
      var p := LastMatchedPara(spans).value; var ss := spans[p];
      AllMatches(spans)[|AllMatches(spans)| - 1] == Match(p, ss[|ss| - 1].start, ss[|ss| - 1].end)
    decreases |spans|
  {
    if spans != [] {
      var front := spans[..|spans| - 1];
      LastMatchIsLastSpanOfLastPara(front);
      if spans[|spans| - 1] == [] {
        assert AllMatches(spans) == AllMatches(front);
        assert LastMatchedPara(spans) == LastMatchedPara(front);
      }
    }
  }

  /** Every match lies inside its paragraph. */
  lemma {:induction false} MatchesFit(paras: seq<string>, spans: seq<seq<Span>>)
    requires SpansFit(paras, spans)
    ensures forall m :: m in AllMatches(spans) ==> m.para < |paras| && m.start <= m.end <= |paras[m.para]|
    decreases |spans|
  {
    if spans != [] {
      var n := |spans| - 1;
      MatchesFit(paras[..n], spans[..n]);
    }
  }

  /** `text` with the characters from `start` up to `end` replaced by `repl`. */
  function Splice(text: string, start: nat, end: nat, repl: string): (r: string)
    requires start <= end <= |text|
    ensures |r| == |text| - (end - start) + |repl|
    ensures r[..start] == text[..start] && r[start..start + |repl|] == repl && r[start + |repl|..] == text[end..]
  {
    text[..start] + repl + text[end..]
  }

  /** Splicing back what was cut out restores the text. */
  lemma SpliceUndo(text: string, start: nat, end: nat, repl: string)
    requires start <= end <= |text|
    ensures Splice(Splice(text, start, end, repl), start, start + |repl|, text[start..end]) == text
  {
    var r := Splice(text, start, end, repl);
    assert r[..start] + text[start..end] + r[start + |repl|..] == text[..start] + text[start..end] + text[end..];
    assert text[..start] + text[start..end] + text[end..] == text;
  }

  /**
   * The paragraphs after `replace_word_in_docx`: the last match replaced by
   * `repl`, or the paragraphs as they were when there is no match.
   */
  function ReplaceLast(paras: seq<string>, spans: seq<seq<Span>>, repl: string): seq<string>
    requires SpansFit(paras, spans)
  {
    var ms := AllMatches(spans);
    if ms == [] then paras
    else
      var m := ms[|ms| - 1];
      MatchesFit(paras, spans);
      assert m in ms;
      paras[m.para := Splice(paras[m.para], m.start, m.end, repl)]
  }

  /**
   * Only the last paragraph that has a match changes, and in it only the
   * text of its last span; with no match nothing changes.
   */
  lemma ReplaceLastOnly(paras: seq<string>, spans: seq<seq<Span>>, repl: string)
    requires SpansFit(paras, spans)
    ensures var r := ReplaceLast(paras, spans, repl);
      && |r| == |paras|
      && (LastMatchedPara(spans).None? ==> r == paras)
      && (LastMatchedPara(spans).Some? ==>
            var p := LastMatchedPara(spans).value; var s := spans[p][|spans[p]| - 1];
            && s.start <= s.end <= |paras[p]|
            && r[p] == Splice(paras[p], s.start, s.end, repl)
            && forall q :: 0 <= q < |paras| && q != p ==> r[q] == paras[q])
  {
    LastMatchIsLastSpanOfLastPara(spans);
  }

  // ---------------------------------------------------------------------
  // Sentence lookup (`show_sentence_with_word`)

  /** The first paragraph whose lower-cased text contains `word`. */
  function FirstContaining(paras: seq<string>, word: string, lower: string -> string): (r: Option<nat>)
    ensures r.Some? ==> r.value < |paras| && IsSubstring(word, lower(paras[r.value]))
    ensures r.Some? ==> forall i :: 0 <= i < r.value ==> !IsSubstring(word, lower(paras[i]))
    ensures r.None? ==> forall i :: 0 <= i < |paras| ==> !IsSubstring(word, lower(paras[i]))
  {
    if paras == [] then None
    else if IsSubstring(word, lower(paras[0])) then Some(0)
    else
      match FirstContaining(paras[1..], word, lower)
      case None => None
      case Some(i) => Some(i + 1)
  }

  // ---------------------------------------------------------------------
  // Document navigation (`prev_doc`, `next_doc`)

  /** The index after `i`, wrapping from the last to the first; the source's floor modulo agrees with Dafny's for positive `n`. */
  function NextIndex(i: int, n: nat): (r: nat)
    requires n > 0
    ensures r < n
  {
    (i + 1) % n
  }

  /** The index before `i`, wrapping from the first to the last. */
  function PrevIndex(i: int, n: nat): (r: nat)
    requires n > 0
    ensures r < n
  {
    (i - 1) % n
  }

  lemma ModOfSmall(x: int, n: nat)
    requires 0 <= x < n
    ensures x % n == x
  {
  }

  lemma ModOfMinusOne(n: nat)
    requires n > 0
    ensures (-1) % n == n - 1
  {
    assert -1 == (-1) * n + (n - 1);
  }

  /** Stepping forward and then back returns to the same document. */
  lemma NextThenPrev(i: nat, n: nat)
    requires i < n
    ensures PrevIndex(NextIndex(i, n), n) == i
  {
    if i + 1 < n {
      ModOfSmall(i + 1, n);
    } else {
      ModOfMinusOne(n);
    }
    ModOfSmall(i, n);
  }

  /** Stepping back and then forward returns to the same document. */
  lemma PrevThenNext(i: nat, n: nat)
    requires i < n
    ensures NextIndex(PrevIndex(i, n), n) == i
  {
    if i > 0 {
      ModOfSmall(i - 1, n);
      ModOfSmall(i, n);
    } else {
      ModOfMinusOne(n);
      assert NextIndex(n - 1, n) == n % n;
    }
  }

  /** Stepping back from the first document shows the last, and forward from the last the first. */
  lemma NavigationWraps(n: nat)
    requires n > 0
    ensures PrevIndex(0, n) == n - 1 && NextIndex(n - 1, n) == 0
  {
    ModOfMinusOne(n);
  }
}
