/**
 * The two ways `analisarConteudo` cuts the file content apart:
 * `conteudo.split('\n')` into lines and `conteudo.split(/\s+/)` into words.
 * Both follow JavaScript's `String.prototype.split`: the result is never
 * empty, and a separator at either end leaves an empty piece there.
 */
module Split {

  /** JavaScript's `\s` class: the ECMAScript WhiteSpace and LineTerminator code points. */
  predicate IsWs(c: char) {
    || c == ' ' || c == '\t' || c == '\n' || c == '\r'
    || c == '\U{000B}' || c == '\U{000C}' || c == '\U{00A0}' || c == '\U{1680}'
    || ('\U{2000}' <= c <= '\U{200A}')
    || c == '\U{2028}' || c == '\U{2029}' || c == '\U{202F}' || c == '\U{205F}'
    || c == '\U{3000}' || c == '\U{FEFF}'
  }

  /** On ASCII, `\s` is exactly space, tab, line feed, carriage return, vertical tab and form feed; no Latin letter is whitespace. */
  lemma IsWsAscii(c: char)
    ensures c < '\U{0080}' ==> (IsWs(c) <==> c in {' ', '\t', '\n', '\r', '\U{000B}', '\U{000C}'})
    ensures '\U{00C0}' <= c <= '\U{024F}' ==> !IsWs(c)
  {
  }

  /** No character of `t` is whitespace. */
  predicate NoWs(t: string) {
    forall j :: 0 <= j < |t| ==> !IsWs(t[j])
  }

  /** `s.split(c)` for a one-character separator `c`. */
  function SplitOn(s: string, c: char): (r: seq<string>)
    ensures |r| >= 1
    ensures forall i :: 0 <= i < |r| ==> c !in r[i]
  {
    if s == [] then [[]]
    else
      var rest := SplitOn(s[1..], c);
      if s[0] == c then [[]] + rest
      else [[s[0]] + rest[0]] + rest[1..]
  }

  /** `parts.join(c)`: the pieces with `c` between consecutive ones. */
  function Join(parts: seq<string>, c: char): string
    requires |parts| >= 1
  {
    if |parts| == 1 then parts[0] else parts[0] + [c] + Join(parts[1..], c)
  }

  /** There is one more line than there are separator characters. */
  lemma {:induction false} SplitOnCount(s: string, c: char)
    ensures |SplitOn(s, c)| == multiset(s)[c] + 1
  {
    if s != [] {
      SplitOnCount(s[1..], c);
      assert s == [s[0]] + s[1..];
      assert multiset(s) == multiset{s[0]} + multiset(s[1..]);
    }
  }

  /** Joining the lines back with the separator gives the original content. */
  lemma {:induction false} SplitOnJoin(s: string, c: char)
    ensures Join(SplitOn(s, c), c) == s
  {
    if s != [] {
      var rest := SplitOn(s[1..], c);
      SplitOnJoin(s[1..], c);
      if s[0] == c {
        assert SplitOn(s, c)[1..] == rest;
      } else if |rest| == 1 {
        assert SplitOn(s, c) == [[s[0]] + rest[0]];
      } else {
        var r := SplitOn(s, c);
        assert r[1..] == rest[1..];
        calc {
          Join(r, c);
          [s[0]] + rest[0] + [c] + Join(rest[1..], c);
          [s[0]] + (rest[0] + [c] + Join(rest[1..], c));
          [s[0]] + Join(rest, c);
        }
      }
    }
  }

  /** `s` without its leading run of whitespace. */
  function DropWs(s: string): (r: string)
    ensures |r| <= |s|
    ensures r == [] || !IsWs(r[0])
  {
    if s != [] && IsWs(s[0]) then DropWs(s[1..]) else s
  }

  /** What `DropWs` drops is whitespace, and what it keeps is a suffix. */
  lemma {:induction false} DropWsSuffix(s: string)
    ensures var r := DropWs(s); r == s[|s| - |r|..] && forall i :: 0 <= i < |s| - |r| ==> IsWs(s[i])
  {
    if s != [] && IsWs(s[0]) {
      DropWsSuffix(s[1..]);
      assert forall i :: 1 <= i < |s| ==> s[i] == s[1..][i - 1];
    }
  }

  /** `s.split(/\s+/)`: every maximal run of whitespace separates two words. */
  function SplitWs(s: string): (r: seq<string>)
    ensures |r| >= 1
    decreases |s|
  {
    if s == [] then [[]]
    else if IsWs(s[0]) then [[]] + SplitWs(DropWs(s[1..]))
    else
      var rest := SplitWs(s[1..]);
      [[s[0]] + rest[0]] + rest[1..]
  }

  /** One step of `SplitWs` on a leading non-whitespace character: it joins the first word. */
  lemma SplitWsWordStep(c: char, t: string)
    requires !IsWs(c)
    ensures var r := SplitWs([c] + t); var u := SplitWs(t);
      |r| == |u| && r[0] == [c] + u[0] && forall i :: 1 <= i < |r| ==> r[i] == u[i]
  {
    var s := [c] + t;
    assert s[0] == c && s[1..] == t;
  }

  /** One step of `SplitWs` on a leading whitespace run: it closes an empty first word. */
  lemma SplitWsRunStep(s: string)
    requires s != [] && IsWs(s[0])
    ensures var r := SplitWs(s); var u := SplitWs(DropWs(s[1..]));
      |r| == |u| + 1 && r[0] == [] && forall i :: 1 <= i < |r| ==> r[i] == u[i - 1]
  {
  }

  /** No word contains whitespace. */
  lemma {:induction false} SplitWsNoWs(s: string)
    ensures var r := SplitWs(s); forall i :: 0 <= i < |r| ==> NoWs(r[i])
    decreases |s|
  {
    if s == [] {
    } else if IsWs(s[0]) {
      SplitWsNoWs(DropWs(s[1..]));
      SplitWsRunStep(s);
    } else {
      SplitWsNoWs(s[1..]);
      assert s == [s[0]] + s[1..];
      SplitWsWordStep(s[0], s[1..]);
      var u := SplitWs(s[1..]);
      assert NoWs(u[0]);
      assert NoWs([s[0]] + u[0]) by {
        assert forall j :: 1 <= j < |u[0]| + 1 ==> ([s[0]] + u[0])[j] == u[0][j - 1];
      }
    }
  }

  /** The first word is empty exactly when the content is empty or starts with whitespace. */
  lemma SplitWsFirst(s: string)
    ensures SplitWs(s)[0] == [] <==> s == [] || IsWs(s[0])
  {
    if s != [] {
      if IsWs(s[0]) {
        SplitWsRunStep(s);
      } else {
        assert s == [s[0]] + s[1..];
        SplitWsWordStep(s[0], s[1..]);
      }
    }
  }

  /** The content splits into a single word exactly when it holds no whitespace. */
  lemma {:induction false} SplitWsSingleIff(s: string)
    ensures |SplitWs(s)| == 1 <==> NoWs(s)
    decreases |s|
  {
    if s == [] {
    } else if IsWs(s[0]) {
      SplitWsRunStep(s);
    } else {
      SplitWsSingleIff(s[1..]);
      assert s == [s[0]] + s[1..];
      SplitWsWordStep(s[0], s[1..]);
      assert NoWs(s) <==> NoWs(s[1..]) by {
        assert forall j :: 1 <= j < |s| ==> s[j] == s[1..][j - 1];
      }
    }
  }

  /** Text without whitespace is a single word: itself. */
  lemma {:induction false} SplitWsSingle(s: string)
    requires NoWs(s)
    ensures SplitWs(s) == [s]
  {
    if s != [] {
      assert NoWs(s[1..]);
      SplitWsSingle(s[1..]);
      assert s == [s[0]] + s[1..];
      SplitWsWordStep(s[0], s[1..]);
    }
  }

  /** Every character of `t` is whitespace. */
  predicate AllWs(t: string) {
    forall j :: 0 <= j < |t| ==> IsWs(t[j])
  }

  /** A whitespace run in front of text that does not start with whitespace is dropped whole. */
  lemma {:induction false} DropWsRun(sep: string, rest: string)
    requires AllWs(sep) && (rest == [] || !IsWs(rest[0]))
    ensures DropWs(sep + rest) == rest
  {
    if sep == [] {
      assert sep + rest == rest;
    } else {
      assert (sep + rest)[0] == sep[0] && (sep + rest)[1..] == sep[1..] + rest;
      DropWsRun(sep[1..], rest);
    }
  }

  /** A word followed by a whitespace run of any length and more text leaves that word first, then the words of the rest. */
  lemma {:induction false} SplitWsWordThen(w: string, sep: string, rest: string)
    requires NoWs(w) && |sep| >= 1 && AllWs(sep) && (rest == [] || !IsWs(rest[0]))
    ensures var r := SplitWs(w + sep + rest); var u := SplitWs(rest);
      |r| == |u| + 1 && r[0] == w && forall i :: 1 <= i < |r| ==> r[i] == u[i - 1]
    decreases |w|
  {
    if w == [] {
      var s := sep + rest;
      assert w + sep + rest == s;
      assert s[0] == sep[0] && s[1..] == sep[1..] + rest;
      DropWsRun(sep[1..], rest);
      SplitWsRunStep(s);
    } else {
      var w' := w[1..];
      assert NoWs(w');
      SplitWsWordThen(w', sep, rest);
      assert w + sep + rest == [w[0]] + (w' + sep + rest);
      SplitWsWordStep(w[0], w' + sep + rest);
    }
  }

  /** The same as whole sequences: the word, then the words of the rest. */
  lemma SplitWsCons(w: string, sep: string, rest: string)
    requires NoWs(w) && |sep| >= 1 && AllWs(sep) && (rest == [] || !IsWs(rest[0]))
    ensures SplitWs(w + sep + rest) == [w] + SplitWs(rest)
  {
    SplitWsWordThen(w, sep, rest);
    var r := SplitWs(w + sep + rest);
    var v := [w] + SplitWs(rest);
    assert |r| == |v|;
    assert forall i :: 1 <= i < |r| ==> v[i] == SplitWs(rest)[i - 1];
  }

  /** Non-empty words without whitespace, joined by one whitespace character, split back into those words. */
  lemma {:induction false} SplitWsJoin(ws: seq<string>, c: char)
    requires |ws| >= 1 && IsWs(c)
    requires forall i :: 0 <= i < |ws| ==> ws[i] != [] && NoWs(ws[i])
    ensures SplitWs(Join(ws, c)) == ws
  {
    if |ws| == 1 {
      SplitWsSingle(ws[0]);
    } else {
      var tail := ws[1..];
      SplitWsJoin(tail, c);
      var rest := Join(tail, c);
      assert rest[0] == tail[0][0];
      assert Join(ws, c) == ws[0] + [c] + rest;
      SplitWsWordThen(ws[0], [c], rest);
      var r := SplitWs(Join(ws, c));
      assert forall i :: 1 <= i < |ws| ==> r[i] == ws[i];
    }
  }

  /** The characters of `s` that are not whitespace, in order. */
  function RemoveWs(s: string): (r: string)
    ensures |r| <= |s|
  {
    if s == [] then []
    else if IsWs(s[0]) then RemoveWs(s[1..])
    else [s[0]] + RemoveWs(s[1..])
  }

  /** All the pieces, one after the other. */
  function Concat(parts: seq<string>): string {
    if parts == [] then [] else parts[0] + Concat(parts[1..])
  }

  lemma {:induction false} ConcatSnoc(parts: seq<string>, t: string)
    ensures Concat(parts + [t]) == Concat(parts) + t
  {
    if parts != [] {
      assert (parts + [t])[1..] == parts[1..] + [t];
      ConcatSnoc(parts[1..], t);
    }
  }

  lemma {:induction false} RemoveWsDrop(s: string)
    ensures RemoveWs(DropWs(s)) == RemoveWs(s)
  {
    if s != [] && IsWs(s[0]) {
      RemoveWsDrop(s[1..]);
    }
  }

  /** Splitting on whitespace loses exactly the whitespace: the words, glued together, are the non-whitespace characters. */
  lemma {:induction false} SplitWsConcat(s: string)
    ensures Concat(SplitWs(s)) == RemoveWs(s)
    decreases |s|
  {
    if s == [] {
    } else if IsWs(s[0]) {
      var d := DropWs(s[1..]);
      SplitWsConcat(d);
      RemoveWsDrop(s[1..]);
      assert SplitWs(s)[1..] == SplitWs(d);
    } else {
      var rest := SplitWs(s[1..]);
      SplitWsConcat(s[1..]);
      var r := SplitWs(s);
      assert r[1..] == rest[1..];
      assert Concat(rest) == rest[0] + Concat(rest[1..]);
    }
  }

  /** `s` is non-empty and its last character is whitespace. */
  predicate EndsWithWs(s: string) {
    s != [] && IsWs(s[|s| - 1])
  }

  /** After a leading whitespace run, what is left ends with whitespace, or is empty, exactly when the whole does. */
  lemma DropWsEnd(s: string)
    requires s != [] && IsWs(s[0])
    ensures var d := DropWs(s[1..]); d == [] || EndsWithWs(d) <==> EndsWithWs(s)
  {
    var t := s[1..];
    var d := DropWs(t);
    DropWsSuffix(t);
    if d != [] {
      assert d[|d| - 1] == t[|t| - 1] == s[|s| - 1];
    } else if |s| > 1 {
      assert t[|t| - 1] == s[|s| - 1];
    }
  }

  /** The last word is empty exactly when the content is empty or ends with whitespace. */
  lemma {:induction false} SplitWsLast(s: string)
    ensures var r := SplitWs(s); r[|r| - 1] == [] <==> s == [] || EndsWithWs(s)
    decreases |s|
  {
    if s == [] {
    } else if IsWs(s[0]) {
      SplitWsLast(DropWs(s[1..]));
      SplitWsRunStep(s);
      DropWsEnd(s);
    } else if |s| > 1 {
      var t := s[1..];
      SplitWsLast(t);
      assert s == [s[0]] + t;
      SplitWsWordStep(s[0], t);
      assert EndsWithWs(t) <==> EndsWithWs(s) by {
        assert t[|t| - 1] == s[|s| - 1];
      }
      var r := SplitWs(s);
      var u := SplitWs(t);
      if |u| == 1 {
        SplitWsSingleIff(t);
        assert r[|r| - 1] == [s[0]] + u[0] != [];
        assert !EndsWithWs(t);
      } else {
        assert r[|r| - 1] == u[|u| - 1];
      }
    }
  }

  /** Only the first and the last word can be empty. */
  lemma {:induction false} SplitWsInterior(s: string)
    ensures var r := SplitWs(s); forall i :: 0 < i < |r| - 1 ==> r[i] != []
    decreases |s|
  {
    if s == [] {
    } else if IsWs(s[0]) {
      var d := DropWs(s[1..]);
      SplitWsInterior(d);
      SplitWsRunStep(s);
      SplitWsFirst(d);
    } else {
      SplitWsInterior(s[1..]);
      assert s == [s[0]] + s[1..];
      SplitWsWordStep(s[0], s[1..]);
    }
  }
}
