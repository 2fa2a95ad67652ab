/** The text normaliser of the pipeline: class `etl` of backend/bert/API/etl.py.
    `etl.__init__` stores the text and NLTK's English stopword list; `preprocess`
    lowercases the text, deletes ASCII punctuation, tokenises and drops stopwords.
    The tokenizer (NLTK's `word_tokenize`) is a parameter; `WhitespaceSplit`, the
    behaviour of Python's `str.split()`, is the instance the lemmas below use. */
module Normalizer {
  import opened Common

  /** The 32 characters of Python's `string.punctuation`. */
  const Punctuation: set<char> := {
    '!', '"', '#', '$', '%', '&', '\'', '(', ')', '*', '+', ',', '-', '.', '/', ':',
    ';', '<', '=', '>', '?', '@', '[', '\\', ']', '^', '_', '`', '{', '|', '}', '~'
  }

  /** NLTK's English stopword list (`stopwords.words('english')`, 179 words). */
  const EnglishStopwords: seq<string> :=
    ["i", "me", "my", "myself", "we", "our", "ours", "ourselves", "you", "you're", "you've",
     "you'll", "you'd", "your", "yours", "yourself", "yourselves", "he", "him", "his"] +
    ["himself", "she", "she's", "her", "hers", "herself", "it", "it's", "its", "itself", "they",
     "them", "their", "theirs", "themselves", "what", "which", "who", "whom", "this"] +
    ["that", "that'll", "these", "those", "am", "is", "are", "was", "were", "be", "been",
     "being", "have", "has", "had", "having", "do", "does", "did", "doing"] +
    ["a", "an", "the", "and", "but", "if", "or", "because", "as", "until", "while", "of", "at",
     "by", "for", "with", "about", "against", "between", "into"] +
    ["through", "during", "before", "after", "above", "below", "to", "from", "up", "down", "in",
     "out", "on", "off", "over", "under", "again", "further", "then", "once"] +
    ["here", "there", "when", "where", "why", "how", "all", "any", "both", "each", "few", "more",
     "most", "other", "some", "such", "no", "nor", "not", "only"] +
    ["own", "same", "so", "than", "too", "very", "s", "t", "can", "will", "just", "don", "don't",
     "should", "should've", "now", "d", "ll", "m", "o"] +
    ["re", "ve", "y", "ain", "aren", "aren't", "couldn", "couldn't", "didn", "didn't", "doesn",
     "doesn't", "hadn", "hadn't", "hasn", "hasn't", "haven", "haven't", "isn", "isn't"] +
    ["ma", "mightn", "mightn't", "mustn", "mustn't", "needn", "needn't", "shan", "shan't",
     "shouldn", "shouldn't", "wasn", "wasn't", "weren", "weren't", "won", "won't", "wouldn",
     "wouldn't"]

  /** `s.translate(remove_punctuation_map)`: every punctuation character deleted. */
  function RemovePunctuation(s: string): (r: string)
    ensures forall i :: 0 <= i < |r| ==> r[i] !in Punctuation
    ensures forall c :: c in r ==> c in s
    ensures forall c :: c !in Punctuation ==> multiset(r)[c] == multiset(s)[c]
    ensures IsSubsequence(r, s)
    decreases |s|
  {
    if s == [] then []
    else
      assert s == [s[0]] + s[1..];
      if s[0] in Punctuation then RemovePunctuation(s[1..])
      else [s[0]] + RemovePunctuation(s[1..])
  }

  /** `[word for word in tokens if word not in stop]`. */
  function RemoveStopwords(tokens: seq<string>, stop: seq<string>): (kept: seq<string>)
    ensures forall w :: w in kept ==> w !in stop
    ensures forall w :: w !in stop ==> multiset(kept)[w] == multiset(tokens)[w]
    ensures IsSubsequence(kept, tokens)
    decreases |tokens|
  {
    if tokens == [] then []
    else
      assert tokens == [tokens[0]] + tokens[1..];
      if tokens[0] in stop then RemoveStopwords(tokens[1..], stop)
      else [tokens[0]] + RemoveStopwords(tokens[1..], stop)
  }

  /** An `etl` object: the stopword list and the text, both fixed at construction. */
  datatype Etl = Etl(enStop: seq<string>, text: string)
  {
    /** What `preprocess` hands to the tokenizer. */
    function Prepared(): (p: string)
      ensures forall c :: c in p ==> c !in Punctuation && !IsAsciiUpper(c)
    {
      var lowered := Lower(text);
      assert forall c :: c in lowered ==> !IsAsciiUpper(c);
      RemovePunctuation(lowered)
    }

    /** `etl.preprocess()` with the given tokenizer: the tokens of the prepared text,
        in order, with every stopword removed and every other token kept. */
    function Preprocess(tokenize: string -> seq<string>): (query: seq<string>)
      ensures forall w :: w in query ==> w !in enStop
      ensures forall w :: w !in enStop ==> multiset(query)[w] == multiset(tokenize(Prepared()))[w]
      ensures IsSubsequence(query, tokenize(Prepared()))
    {
      RemoveStopwords(tokenize(Prepared()), enStop)
    }
  }

  /** `etl(text)`: the constructor loads the English stopword list. */
  function NewEtl(text: string): Etl
  {
    Etl(EnglishStopwords, text)
  }

  function SplitFrom(s: string, word: string): (words: seq<string>)
    requires forall c :: c in word ==> !IsPyWhitespace(c)
    ensures forall w :: w in words ==> w != [] && forall c :: c in w ==> !IsPyWhitespace(c) && (c in s || c in word)
    decreases |s|
  {
    if s == [] then (if word == [] then [] else [word])
    else if IsPyWhitespace(s[0]) then
      (if word == [] then [] else [word]) + SplitFrom(s[1..], [])
    else
      SplitFrom(s[1..], word + [s[0]])
  }

  /** Python's `str.split()` with no argument: maximal runs of non-whitespace. */
  function WhitespaceSplit(s: string): (words: seq<string>)
    ensures forall w :: w in words ==> w != [] && forall c :: c in w ==> c in s && !IsPyWhitespace(c)
  {
    SplitFrom(s, [])
  }

  lemma {:induction false} SplitOfBlank(s: string)
    requires forall i :: 0 <= i < |s| ==> IsPyWhitespace(s[i])
    ensures SplitFrom(s, []) == []
    decreases |s|
  {
    if s != [] {
      SplitOfBlank(s[1..]);
    }
  }

  lemma {:induction false} SplitOfWord(s: string, word: string)
    requires forall c :: c in word ==> !IsPyWhitespace(c)
    requires forall i :: 0 <= i < |s| ==> !IsPyWhitespace(s[i])
    requires word + s != []
    ensures SplitFrom(s, word) == [word + s]
    decreases |s|
  {
    if s == [] {
      assert word + s == word;
    } else {
      SplitOfWord(s[1..], word + [s[0]]);
      assert word + [s[0]] + s[1..] == word + s;
    }
  }

  lemma {:induction false} RemovePunctuationOfClean(s: string)
    requires forall i :: 0 <= i < |s| ==> s[i] !in Punctuation
    ensures RemovePunctuation(s) == s
    decreases |s|
  {
    if s != [] {
      RemovePunctuationOfClean(s[1..]);
      assert s == [s[0]] + s[1..];
    }
  }

  /** Text made only of whitespace and punctuation (the empty text included)
      normalises to no tokens at all. */
  lemma BlankTextYieldsNothing(e: Etl)
    requires forall i :: 0 <= i < |e.text| ==> IsPyWhitespace(e.text[i]) || e.text[i] in Punctuation
    ensures e.Preprocess(WhitespaceSplit) == []
  {
    var lowered := Lower(e.text);
    assert forall i :: 0 <= i < |lowered| ==> lowered[i] == e.text[i];
    var p := e.Prepared();
    forall i | 0 <= i < |p| ensures IsPyWhitespace(p[i]) {
      assert p[i] in lowered;
    }
    SplitOfBlank(p);
  }

  /** A word free of whitespace and punctuation is prepared into its lowercase form
      and tokenised into that one word. */
  lemma CleanWordTokens(stop: seq<string>, word: string)
    requires word != []
    requires forall i :: 0 <= i < |word| ==> !IsPyWhitespace(word[i]) && word[i] !in Punctuation
    ensures WhitespaceSplit(Etl(stop, word).Prepared()) == [Lower(word)]
  {
    var lowered := Lower(word);
    forall i | 0 <= i < |lowered| ensures lowered[i] !in Punctuation && !IsPyWhitespace(lowered[i]) {
      assert lowered[i] == LowerChar(word[i]);
    }
    RemovePunctuationOfClean(lowered);
    SplitOfWord(lowered, []);
    assert [] + lowered == lowered;
  }

  /** Lowercasing comes before the stopword test: a word whose lowercase form is a
      stopword is dropped however it is capitalised. */
  lemma CapitalisedStopwordRemoved(stop: seq<string>, word: string)
    requires word != []
    requires forall i :: 0 <= i < |word| ==> !IsPyWhitespace(word[i]) && word[i] !in Punctuation
    requires Lower(word) in stop
    ensures Etl(stop, word).Preprocess(WhitespaceSplit) == []
  {
    CleanWordTokens(stop, word);
    assert Etl(stop, word).Preprocess(WhitespaceSplit) == RemoveStopwords([Lower(word)], stop);
  }

  /** The English list removes "The". */
  lemma TheIsRemoved()
    ensures NewEtl("The").Preprocess(WhitespaceSplit) == []
  {
    assert Lower("The") == "the";
    assert EnglishStopwords[62] == "the";
    CapitalisedStopwordRemoved(EnglishStopwords, "The");
  }

  /** Every token `preprocess` returns with the whitespace tokenizer is free of
      punctuation, of upper-case ASCII letters and of whitespace, and is not a stopword. */
  lemma ReturnedTokensAreNormalised(e: Etl, w: string)
    requires w in e.Preprocess(WhitespaceSplit)
    ensures w !in e.enStop && w != []
    ensures forall c :: c in w ==> c !in Punctuation && !IsAsciiUpper(c) && !IsPyWhitespace(c)
  {
    var p := e.Prepared();
    var tokens := WhitespaceSplit(p);
    assert multiset(e.Preprocess(WhitespaceSplit))[w] > 0;
    assert w in tokens;
    forall c | c in w ensures c !in Punctuation && !IsAsciiUpper(c) {
      assert c in p;
    }
  }
}
