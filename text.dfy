/** String helpers used by the Tagger utilities: ASCII case mapping,
    `String.prototype.split` / `Array.prototype.join` on a one-character
    separator, and the word-wise title-caser `toTitleCase`. */
module Text {

  predicate IsUpper(c: char) { 'A' <= c <= 'Z' }

  predicate IsLower(c: char) { 'a' <= c <= 'z' }

  /** `toLowerCase` on one character, restricted to ASCII. */
  function ToLowerChar(c: char): (r: char)
    ensures !IsUpper(r)
    ensures IsUpper(c) ==> IsLower(r) && r as int == c as int + 32
    ensures !IsUpper(c) ==> r == c
  {
    if IsUpper(c) then (c as int + 32) as char else c
  }

  /** `toUpperCase` on one character, restricted to ASCII. */
  function ToUpperChar(c: char): (r: char)
    ensures !IsLower(r)
    ensures IsLower(c) ==> IsUpper(r) && r as int == c as int - 32
    ensures !IsLower(c) ==> r == c
  {
    if IsLower(c) then (c as int - 32) as char else c
  }

  /** `String.prototype.toLowerCase`, restricted to ASCII. */
  function ToLower(s: string): (r: string)
    ensures |r| == |s|
    ensures forall i :: 0 <= i < |r| ==> !IsUpper(r[i])
    ensures forall i :: 0 <= i < |s| && !IsUpper(s[i]) ==> r[i] == s[i]
    ensures forall i :: 0 <= i < |s| && IsUpper(s[i]) ==> IsLower(r[i]) && r[i] as int == s[i] as int + 32
  {
    seq(|s|, i requires 0 <= i < |s| => ToLowerChar(s[i]))
  }

  /** Position of the first occurrence of `c` in `s`. */
  function IndexOf(s: string, c: char): (i: nat)
    requires c in s
    ensures i < |s| && s[i] == c
    ensures c !in s[..i]
  {
    if s[0] == c then 0 else 1 + IndexOf(s[1..], c)
  }

  /** `Array.prototype.join(sep)` on strings. */
  function Join(parts: seq<string>, sep: char): string
  {
    if |parts| == 0 then ""
    else if |parts| == 1 then parts[0]
    else parts[0] + [sep] + Join(parts[1..], sep)
  }

  /** `String.prototype.split(sep)` for a one-character separator: the
      pieces between separators, empty ones included, so there is always at
      least one piece and joining them back gives the input. */
  function Split(s: string, sep: char): (parts: seq<string>)
    ensures |parts| >= 1
    ensures forall k :: 0 <= k < |parts| ==> sep !in parts[k]
    ensures forall k, c :: 0 <= k < |parts| && c in parts[k] ==> c in s
    ensures Join(parts, sep) == s
    decreases |s|
  {
    if sep !in s then [s]
    else
      var i := IndexOf(s, sep);
      var rest := Split(s[i + 1..], sep);
      assert s == s[..i] + [sep] + s[i + 1..];
      assert forall c :: c in s[..i] ==> c in s;
      assert forall c :: c in s[i + 1..] ==> c in s;
      [s[..i]] + rest
  }

  /** `word.charAt(0).toUpperCase() + word.slice(1)`. */
  function CapitalizeWord(w: string): string
  {
    if w == "" then "" else [ToUpperChar(w[0])] + w[1..]
  }

  function CapitalizeAll(words: seq<string>): (r: seq<string>)
    ensures |r| == |words|
  {
    if words == [] then [] else [CapitalizeWord(words[0])] + CapitalizeAll(words[1..])
  }

  /** `toTitleCase`: lower-case the phrase, split it on single spaces,
      capitalise the first character of every piece and join with spaces. */
  function TitleCase(phrase: string): string
  {
    Join(CapitalizeAll(Split(ToLower(phrase), ' ')), ' ')
  }

  /** Independent, character-wise description of title-casing: a character
      that starts a word (first position, or right after a space) is
      upper-cased after lower-casing; every other character is lower-cased. */
  function TitleCaseChar(s: string, i: nat): char
    requires i < |s|
  {
    if i == 0 || s[i - 1] == ' ' then ToUpperChar(ToLowerChar(s[i])) else ToLowerChar(s[i])
  }

  /** Upper-cases the characters of `t` that start a word, keeps the rest. */
  function CapitalizeStarts(t: string): (r: string)
    ensures |r| == |t|
  {
    seq(|t|, i requires 0 <= i < |t| => if i == 0 || t[i - 1] == ' ' then ToUpperChar(t[i]) else t[i])
  }

  /** A word with no space in it is capitalised exactly at its start. */
  lemma CapitalizeWordStarts(w: string)
    requires ' ' !in w
    ensures CapitalizeWord(w) == CapitalizeStarts(w)
  {
    forall j | 0 < j < |w|
      ensures CapitalizeWord(w)[j] == CapitalizeStarts(w)[j]
    {
      assert w[j - 1] in w;
    }
  }

  /** Cutting at the first space: the word before it is capitalised as a
      word, the text after it as a fresh phrase. */
  lemma CapitalizeStartsAtSpace(t: string, i: nat)
    requires i < |t| && t[i] == ' ' && ' ' !in t[..i]
    ensures CapitalizeStarts(t) == CapitalizeWord(t[..i]) + [' '] + CapitalizeStarts(t[i + 1..])
  {
    var a, b := t[..i], t[i + 1..];
    CapitalizeWordStarts(a);
    var rhs := CapitalizeStarts(a) + [' '] + CapitalizeStarts(b);
    forall j | 0 <= j < |t|
      ensures rhs[j] == CapitalizeStarts(t)[j]
    {
      if 0 < j < i {
        assert t[j - 1] == a[j - 1];
      } else if j > i + 1 {
        assert t[j - 1] == b[j - i - 2];
      }
    }
  }

  lemma {:induction false} JoinCapitalizedSplit(t: string)
    ensures Join(CapitalizeAll(Split(t, ' ')), ' ') == CapitalizeStarts(t)
    decreases |t|
  {
    if ' ' !in t {
      assert Split(t, ' ') == [t];
      assert CapitalizeAll([t]) == [CapitalizeWord(t)];
      CapitalizeWordStarts(t);
    } else {
      var i := IndexOf(t, ' ');
      var rest := Split(t[i + 1..], ' ');
      assert Split(t, ' ') == [t[..i]] + rest;
      JoinCapitalizedSplit(t[i + 1..]);
      var caps := CapitalizeAll([t[..i]] + rest);
      assert caps[0] == CapitalizeWord(t[..i]);
      assert caps[1..] == CapitalizeAll(rest);
      CapitalizeStartsAtSpace(t, i);
    }
  }

  /** Capitalising the word starts of the lower-cased phrase follows the
      character-wise rule. */
  lemma CapitalizeStartsLower(s: string)
    ensures |CapitalizeStarts(ToLower(s))| == |s|
    ensures forall i :: 0 <= i < |s| ==> CapitalizeStarts(ToLower(s))[i] == TitleCaseChar(s, i)
  {
    var t := ToLower(s);
    forall i | 0 <= i < |s|
      ensures CapitalizeStarts(t)[i] == TitleCaseChar(s, i)
    {
      if i > 0 {
        assert (t[i - 1] == ' ') == (s[i - 1] == ' ');
      }
    }
  }

  /** Title-casing keeps the length and follows the character-wise rule. */
  lemma TitleCaseCharwise(s: string)
    ensures |TitleCase(s)| == |s|
    ensures forall i :: 0 <= i < |s| ==> TitleCase(s)[i] == TitleCaseChar(s, i)
  {
    JoinCapitalizedSplit(ToLower(s));
    CapitalizeStartsLower(s);
  }

  /** Title-casing keeps every space where it was, and nothing else becomes a space. */
  lemma TitleCaseKeepsSpaces(s: string)
    ensures |TitleCase(s)| == |s|
    ensures forall i :: 0 <= i < |s| ==> (TitleCase(s)[i] == ' ' <==> s[i] == ' ')
  {
    TitleCaseCharwise(s);
  }

  /** Case mapping one character twice changes nothing more. */
  lemma CaseIdempotent(c: char)
    ensures ToLowerChar(ToLowerChar(c)) == ToLowerChar(c)
    ensures ToUpperChar(ToLowerChar(ToUpperChar(ToLowerChar(c)))) == ToUpperChar(ToLowerChar(c))
  {
  }

  /** Title-casing an already title-cased string changes nothing. */
  lemma TitleCaseIdempotent(s: string)
    ensures TitleCase(TitleCase(s)) == TitleCase(s)
  {
    var r := TitleCase(s);
    TitleCaseCharwise(s);
    TitleCaseCharwise(r);
    forall i | 0 <= i < |r|
      ensures TitleCaseChar(r, i) == r[i]
    {
      CaseIdempotent(s[i]);
      if i > 0 {
        assert (r[i - 1] == ' ') == (s[i - 1] == ' ');
      }
    }
  }

  /** The empty phrase stays empty and a non-empty one stays non-empty. */
  lemma TitleCaseEmpty(s: string)
    ensures (TitleCase(s) == "") <==> (s == "")
  {
    TitleCaseCharwise(s);
  }

  /** A single word gets a capital first letter and is lower case after it. */
  lemma TitleCaseWord(w: string)
    requires w != "" && ' ' !in w
    ensures TitleCase(w) == [ToUpperChar(ToLowerChar(w[0]))] + ToLower(w[1..])
  {
    TitleCaseCharwise(w);
    forall i | 0 < i < |w| ensures TitleCaseChar(w, i) == ToLower(w[1..])[i - 1] {
      assert w[i - 1] in w;
    }
  }

  /** A shouted word keeps only its first capital. */
  lemma TitleCaseShoutedWord()
    ensures TitleCase("BLONDE") == "Blonde"
  {
    TitleCaseWord("BLONDE");
    assert ToLower("LONDE") == "londe";
  }
}
