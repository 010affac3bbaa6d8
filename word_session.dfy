/**
 * The word-finder session of word_finder_ui.py: the module globals
 * (`doc_files`, `current_index`, `fuellwoerter`, `word_buttons`, the
 * output text) become the fields of one object, and the documents of the
 * folder and the filler-word file become fields too, since the session
 * rewrites them. Widgets are reduced to the rows of the word list and the
 * text of the output box.
 */
module WordSession {
  import opened Wrappers
  import opened Strings
  import opened WordText

  const NO_DOCUMENTS: string := "Keine Dokumente gefunden.\n"

  /** The names in the directory listing that end in `.docx`, in listing order. */
  function DocxFiles(listing: seq<string>): (r: seq<string>)
    ensures forall f :: f in r <==> f in listing && EndsWith(f, ".docx")
  {
    if listing == [] then []
    else (if EndsWith(listing[0], ".docx") then [listing[0]] else []) + DocxFiles(listing[1..])
  }

  /** The loop of `load_doc_words` over `Counter(words).items()`. */
  method ListCandidates(words: seq<string>, fillers: set<string>) returns (rows: seq<WordCount>)
    ensures rows == Candidates(Distinct(words), words, fillers)
  {
    var keys := Distinct(words);
    rows := [];
    var i := 0;
    while i < |keys|
      invariant 0 <= i <= |keys|
      invariant rows == Candidates(keys[..i], words, fillers)
    {
      var w := keys[i];
      var count := multiset(words)[w];
      CandidatesSnoc(keys, i, words, fillers);
      if count > 1 && w !in fillers {
        rows := rows + [WordCount(w, count)];
      }
      i := i + 1;
    }
    assert keys[..|keys|] == keys;
  }

  class Session {
    var docFiles: seq<string>
    var currentIndex: int
    /** The paragraphs of each document of the folder. */
    var docs: map<string, seq<string>>
    var fillers: set<string>
    /** The content of the filler-word file, `None` while it does not exist. */
    var fillerFile: Option<string>
    var wordButtons: seq<WordCount>
    var output: string
    const lower: string -> string
    const isAlpha: string -> bool

    /** The index points into a non-empty list, and every listed document can be opened. */
    predicate Valid()
      reads this
    {
      && (docFiles == [] ==> currentIndex == 0)
      && (docFiles != [] ==> 0 <= currentIndex < |docFiles|)
      && (forall f :: f in docFiles ==> f in docs)
    }

    /** The word-list rows for a document's paragraphs. */
    function Rows(paras: seq<string>): seq<WordCount>
      reads this
    {
      var words := Words(paras, lower, isAlpha);
      Candidates(Distinct(words), words, fillers)
    }

    /** What `load_doc_words` leaves on screen for the current document. */
    predicate Displayed()
      reads this
      requires Valid()
    {
      && (docFiles == [] ==> wordButtons == [] && output == NO_DOCUMENTS)
      && (docFiles != [] ==>
            var f := docFiles[currentIndex];
            output == "Dokument: " + f + "\n" && wordButtons == Rows(docs[f]))
    }

    /** `create_word_finder_ui` without the widgets. */
    constructor (listing: seq<string>, docs: map<string, seq<string>>, fillerFile: Option<string>,
                 lower: string -> string, isAlpha: string -> bool)
      requires forall f :: f in listing && EndsWith(f, ".docx") ==> f in docs
      ensures Valid() && Displayed()
      ensures docFiles == DocxFiles(listing) && currentIndex == 0 && this.docs == docs
      ensures fillers == LoadFillers(fillerFile, lower) && this.fillerFile == fillerFile
      ensures this.lower == lower && this.isAlpha == isAlpha
    {
      this.lower := lower;
      this.isAlpha := isAlpha;
      this.docs := docs;
      this.fillerFile := fillerFile;
      fillers := LoadFillers(fillerFile, lower);
      docFiles := DocxFiles(listing);
      currentIndex := 0;
      wordButtons := [];
      output := "";
      new;
      LoadDocWords();
    }

    /** `load_doc_words`: the word list of the current document. */
    method LoadDocWords()
      requires Valid()
      modifies this
      ensures Valid() && Displayed()
      ensures docFiles == old(docFiles) && currentIndex == old(currentIndex) && docs == old(docs)
      ensures fillers == old(fillers) && fillerFile == old(fillerFile)
    {
      wordButtons := [];
      if docFiles == [] {
        output := NO_DOCUMENTS;
        return;
      }
      var filename := docFiles[currentIndex];
      output := "Dokument: " + filename + "\n";
      var words := Words(docs[filename], lower, isAlpha);
      wordButtons := ListCandidates(words, fillers);
    }

    /**
     * `next_doc`: `ok` is false when the list is empty (the modulo raises
     * and nothing changes); otherwise the index moves forward cyclically
     * and the word list is reloaded.
     */
    method NextDoc() returns (ok: bool)
      requires Valid()
      modifies this
      ensures Valid()
      ensures ok <==> docFiles != []
      ensures !ok ==> currentIndex == old(currentIndex) && wordButtons == old(wordButtons) && output == old(output)
      ensures ok ==> currentIndex == NextIndex(old(currentIndex), |docFiles|) && Displayed()
      ensures docFiles == old(docFiles) && docs == old(docs) && fillers == old(fillers) && fillerFile == old(fillerFile)
    {
      if docFiles == [] {
        return false;
      }
      currentIndex := NextIndex(currentIndex, |docFiles|);
      LoadDocWords();
      return true;
    }

    /** `prev_doc`, the mirror image of `NextDoc`. */
    method PrevDoc() returns (ok: bool)
      requires Valid()
      modifies this
      ensures Valid()
      ensures ok <==> docFiles != []
      ensures !ok ==> currentIndex == old(currentIndex) && wordButtons == old(wordButtons) && output == old(output)
      ensures ok ==> currentIndex == PrevIndex(old(currentIndex), |docFiles|) && Displayed()
      ensures docFiles == old(docFiles) && docs == old(docs) && fillers == old(fillers) && fillerFile == old(fillerFile)
    {
      if docFiles == [] {
        return false;
      }
      currentIndex := PrevIndex(currentIndex, |docFiles|);
      LoadDocWords();
      return true;
    }

    /** `add_fuellwort`: append the word to the file and to the in-memory set. */
    method AddFiller(word: string)
      modifies this
      ensures fillers == old(fillers) + {word}
      ensures fillerFile == Some(AppendLine(old(fillerFile), word))
      ensures docFiles == old(docFiles) && currentIndex == old(currentIndex) && docs == old(docs)
      ensures wordButtons == old(wordButtons) && output == old(output)
    {
      fillerFile := Some(AppendLine(fillerFile, word));
      fillers := fillers + {word};
    }

    /**
     * `replace_word_in_docx` on document `file`, given the spans the word's
     * pattern matches in each paragraph: with no match nothing is saved;
     * otherwise the last match is replaced and the document saved.
     */
    method ReplaceWordInDocx(file: string, repl: string, spans: seq<seq<Span>>) returns (replaced: bool)
      requires file in docs && SpansFit(docs[file], spans)
      modifies this
      ensures replaced <==> AllMatches(spans) != []
      ensures !replaced ==> docs == old(docs)
      ensures docs == old(docs)[file := ReplaceLast(old(docs)[file], spans, repl)]
      ensures docFiles == old(docFiles) && currentIndex == old(currentIndex) && fillers == old(fillers)
      ensures fillerFile == old(fillerFile) && wordButtons == old(wordButtons) && output == old(output)
    {
      var paras := docs[file];
      var matches: seq<Match> := [];
      var p := 0;
      while p < |paras|
        invariant 0 <= p <= |paras|
        invariant matches == AllMatches(spans[..p])
      {
        var k := 0;
        while k < |spans[p]|
          invariant 0 <= k <= |spans[p]|
          invariant matches == AllMatches(spans[..p]) + ParaMatches(p, spans[p][..k])
        {
          var s := spans[p][k];
          matches := matches + [Match(p, s.start, s.end)];
          k := k + 1;
        }
        assert spans[p][..|spans[p]|] == spans[p];
        assert spans[..p + 1][..p] == spans[..p];
        p := p + 1;
      }
      assert spans[..|paras|] == spans;
      if matches == [] {
        assert docs[file := paras] == docs;
        return false;
      }
      var m := matches[|matches| - 1];
      MatchesFit(paras, spans);
      assert m in matches;
      var text := paras[m.para];
      var newText := text[..m.start] + repl + text[m.end..];
      docs := docs[file := paras[m.para := newText]];
      return true;
    }

    /**
     * `on_confirm` of the replace dialog: with a non-blank entry, replace
     * the word's last match in the current document and reload the list.
     */
    method ConfirmReplace(entry: string, spans: seq<seq<Span>>)
      requires Valid() && docFiles != [] && SpansFit(docs[docFiles[currentIndex]], spans)
      modifies this
      ensures Valid()
      ensures Strip(entry) == [] ==> docs == old(docs) && wordButtons == old(wordButtons) && output == old(output)
      ensures Strip(entry) != [] ==> Displayed()
      ensures var f := old(docFiles[currentIndex]);
        docs == if Strip(entry) == [] then old(docs) else old(docs)[f := ReplaceLast(old(docs)[f], spans, Strip(entry))]
      ensures docFiles == old(docFiles) && currentIndex == old(currentIndex) && fillers == old(fillers)
      ensures fillerFile == old(fillerFile)
    {
      var newWord := Strip(entry);
      if newWord != [] {
        var file := docFiles[currentIndex];
        var replaced := ReplaceWordInDocx(file, newWord, spans);
        LoadDocWords();
      }
    }

    /**
     * `show_sentence_with_word`: show the first paragraph of `file` whose
     * lower-cased text contains `word`, stripped; if none does, the output
     * stays as it was.
     */
    method ShowSentence(file: string, word: string)
      requires file in docs
      modifies this
      ensures docFiles == old(docFiles) && currentIndex == old(currentIndex) && docs == old(docs)
      ensures output == match FirstContaining(docs[file], word, lower)
                        case None => old(output)
                        case Some(i) => Strip(docs[file][i])
      ensures fillers == old(fillers) && fillerFile == old(fillerFile) && wordButtons == old(wordButtons)
    {
      var paras := docs[file];
      var i := 0;
      while i < |paras|
        invariant 0 <= i <= |paras|
        invariant forall j :: 0 <= j < i ==> !IsSubstring(word, lower(paras[j]))
        invariant output == old(output)
      {
        if IsSubstring(word, lower(paras[i])) {
          output := Strip(paras[i]);
          break;
        }
        i := i + 1;
      }
    }
  }
}
