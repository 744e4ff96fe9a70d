/**
 * `analisarConteudo`: the statistics record computed from the text of a file.
 * The average word length is kept as the integer pair it is computed from.
 */
module Analyzer {
  import opened Split
  import opened Frequency

  /** `mediaComprimento`: the total word length over the word count, or the literal `0` when there are no words. */
  datatype Average = Zero | Mean(total: nat, count: nat)

  /** The record `analisarConteudo` returns, field by field. */
  datatype Stats = Stats(
    fileSize: nat,         // tamanhoArquivo
    lineCount: nat,        // numLinhas
    wordCount: nat,        // numPalavras
    charCount: nat,        // numCaracteres
    uniqueWordCount: nat,  // numPalavrasUnicas
    topWords: seq<Entry>,  // contagemPalavras
    average: Average)      // mediaComprimento

  /** `palavras.map(palavra => palavra.length)`. */
  function Lengths(words: seq<string>): (r: seq<nat>)
    ensures |r| == |words|
    ensures forall i :: 0 <= i < |r| ==> r[i] == |words[i]|
  {
    if words == [] then [] else [|words[0]|] + Lengths(words[1..])
  }

  /** `xs.reduce((sum, length) => sum + length)`: a left fold seeded with the first element, defined only on a non-empty array. */
  function Reduce(xs: seq<nat>): (r: nat)
    requires |xs| > 0
    ensures forall i :: 0 <= i < |xs| ==> xs[i] <= r
  {
    if |xs| == 1 then xs[0] else Reduce(xs[..|xs| - 1]) + xs[|xs| - 1]
  }

  /** The reduce over the word lengths is the total length of all words. */
  lemma {:induction false} ReduceLengths(words: seq<string>)
    requires |words| > 0
    ensures Reduce(Lengths(words)) == |Concat(words)|
  {
    var n := |words|;
    if n == 1 {
      assert words == [] + [words[0]];
      ConcatSnoc([], words[0]);
    } else {
      var init := words[..n - 1];
      ReduceLengths(init);
      assert Lengths(words)[..n - 1] == Lengths(init);
      assert words == init + [words[n - 1]];
      ConcatSnoc(init, words[n - 1]);
    }
  }

  /** script.js, lines 47-50: the average word length, guarded against the empty word list. */
  function MeanLength(words: seq<string>): (a: Average)
    ensures a.Zero? <==> words == []
    ensures a.Mean? ==> a.total == |Concat(words)| && a.count == |words|
  {
    var lengths := Lengths(words);
    if |lengths| > 0 then
      ReduceLengths(words);
      Mean(Reduce(lengths), |lengths|)
    else Zero
  }

  /** `new Set(palavras)`: the same words as the keys of the frequency table. */
  function Distinct(words: seq<string>): (r: set<string>)
    ensures r == Occurrences(words).Keys
  {
    set w | w in words
  }

  /** There are never more distinct words than words. */
  lemma {:induction false} DistinctBound(words: seq<string>)
    ensures |Distinct(words)| <= |words|
  {
    if words != [] {
      var n := |words|;
      DistinctBound(words[..n - 1]);
      assert words == words[..n - 1] + [words[n - 1]];
      assert Distinct(words) == Distinct(words[..n - 1]) + {words[n - 1]};
    }
  }

  /** script.js, lines 42-61: `analisarConteudo(conteudo)`. */
  method Analyze(content: string) returns (r: Stats)
    ensures r.fileSize == |content| && r.charCount == r.fileSize
    ensures r.lineCount == multiset(content)['\n'] + 1
    ensures r.wordCount == |SplitWs(content)| >= 1
    ensures r.uniqueWordCount == |Distinct(SplitWs(content))| == |Occurrences(SplitWs(content))|
    ensures r.uniqueWordCount <= r.wordCount
    ensures IsTopK(Occurrences(SplitWs(content)), r.topWords, TopCount)
    ensures r.average == Mean(|RemoveWs(content)|, r.wordCount)
    ensures content == [] ==> r.lineCount == 1 && r.wordCount == 1 && r.average == Mean(0, 1)
  {
    var lines := SplitOn(content, '\n');
    var words := SplitWs(content);
    var unique := Distinct(words);
    var top := CountFrequent(words);
    SplitOnCount(content, '\n');
    SplitWsConcat(content);
    DistinctBound(words);
    r := Stats(|content|, |lines|, |words|, |content|, |unique|, top, MeanLength(words));
  }

  /** The worked example `"the cat the dog the"`, from its five words on: three table entries, and `["the", 3]` heads the list. */
  lemma ExampleTheCat(top: seq<Entry>)
    requires IsTopK(Occurrences(["the", "cat", "the", "dog", "the"]), top, TopCount)
    ensures |top| == 3 && top[0] == ("the", 3)
  {
    var words: seq<string> := ["the", "cat", "the", "dog", "the"];
    var m := Occurrences(words);
    assert multiset(words)["the"] == 3;
    assert m.Keys == {"the", "cat", "dog"};
    TopKHeadIsMax(m, top, TopCount, "the");
  }

  /** The worked example's shape, `"a b a c a"`, splits at its single spaces into its five words. */
  lemma ExampleTheCatSplit(a: string, b: string, c: string, t: string)
    requires a != [] && b != [] && c != [] && NoWs(a) && NoWs(b) && NoWs(c)
    requires t == a + " " + (b + " " + (a + " " + (c + " " + a)))
    ensures SplitWs(t) == [a, b, a, c, a]
  {
    var sp := " ";
    assert AllWs(sp);
    SplitWsSingle(a);
    SplitWsCons(c, sp, a);
    SplitWsCons(a, sp, c + sp + a);
    SplitWsCons(b, sp, a + sp + (c + sp + a));
    SplitWsCons(a, sp, b + sp + (a + sp + (c + sp + a)));
  }

  /** `"the cat the dog the"` splits into its five words. */
  lemma ExampleTheCatWords(content: string)
    requires content == "the cat the dog the"
    ensures SplitWs(content) == ["the", "cat", "the", "dog", "the"]
  {
    assert NoWs("the") && NoWs("cat") && NoWs("dog");
    assert content == "the" + " " + ("cat" + " " + ("the" + " " + ("dog" + " " + "the")));
    ExampleTheCatSplit("the", "cat", "dog", content);
  }

  /** The five words of the worked example hold fifteen characters in all. */
  lemma ExampleTheCatLength()
    ensures |Concat(["the", "cat", "the", "dog", "the"])| == 15
  {
    var ws: seq<string> := ["the", "cat", "the", "dog", "the"];
    assert ws[1..][1..][1..][1..][1..] == [];
  }

  /** `analisarConteudo("the cat the dog the")`: five words, three distinct, `["the", 3]` first, average length 15/5. */
  method AnalyzeExample(content: string) returns (r: Stats)
    requires content == "the cat the dog the"
    ensures r.wordCount == 5 && r.uniqueWordCount == 3
    ensures |r.topWords| == 3 && r.topWords[0] == ("the", 3)
    ensures r.average == Mean(15, 5)
  {
    r := Analyze(content);
    ExampleTheCatWords(content);
    ExampleTheCat(r.topWords);
    assert |r.topWords| == Min(TopCount, r.uniqueWordCount);
    SplitWsConcat(content);
    ExampleTheCatLength();
  }
}
