/** Identifier helpers of helpers.go: the initialism table, the camel-case
    splitter behind camelToSnake, deModel and unexport. Case mapping is ASCII
    only and one character stands for one byte (one rune). */
module Naming {
  import opened GoStrings

  /** commonInitialisms: the acronyms kept together when splitting names. */
  const CommonInitialisms: set<string> :=
    {"API", "ASCII", "CPU", "CSS", "DNS", "EOF", "GUID", "HTML", "HTTP", "HTTPS",
     "ID", "IP", "JSON", "LHS", "QPS", "RAM", "RHS", "RPC", "SLA", "SMTP", "SSH",
     "TLS", "TTL", "UI", "UID", "UUID", "URI", "URL", "UTF8", "VM", "XML"}

  const Digits: string := "0123456789"

  /** isASCIILower: the ASCII lower-case letters are exactly what lower-casing
      makes of the upper-case ones. */
  predicate IsASCIILower(c: char): (b: bool)
    ensures b <==> exists u :: IsUpper(u) && LowerChar(u) == c
  {
    if 'a' <= c <= 'z' then
      var u := (c as int - 32) as char;
      assert IsUpper(u) && LowerChar(u) == c;
      true
    else
      false
  }

  /** isASCIIDigit: the ten decimal digits, which lower-casing leaves alone. */
  predicate IsASCIIDigit(c: char): (b: bool)
    ensures b <==> c in Digits
    ensures b ==> !IsUpper(c) && !IsASCIILower(c) && LowerChar(c) == c
  {
    if '0' <= c <= '9' then
      assert Digits[c as int - '0' as int] == c;
      true
    else
      false
  }

  /** The shape of every entry of an initialism table: two to five
      characters, the first two upper-case. The splitting proofs below rely
      only on this, not on the particular entries. */
  ghost predicate Shaped(table: set<string>) {
    forall w :: w in table ==> 2 <= |w| <= 5 && IsUpper(w[0]) && IsUpper(w[1])
  }

  /** commonInitialisms has that shape. */
  lemma CommonInitialismsShaped()
    ensures Shaped(CommonInitialisms)
  {
    forall w | w in CommonInitialisms
      ensures 2 <= |w| <= 5 && IsUpper(w[0]) && IsUpper(w[1])
    {
    }
  }

  /** The longest entry of `table` among the prefixes of `s` of length 1..n,
      or "". */
  function LongestInitialismUpTo(s: string, n: nat, table: set<string>): (r: string)
    ensures |r| <= n
  {
    if n == 0 then ""
    else if n <= |s| && s[..n] in table then s[..n]
    else LongestInitialismUpTo(s, n - 1, table)
  }

  /** What is found is an entry of the table, or nothing. */
  lemma {:induction false} LongestInitialismFound(s: string, n: nat, table: set<string>)
    ensures var r := LongestInitialismUpTo(s, n, table);
      r == "" || (r in table && 1 <= |r|)
    decreases n
  {
    if n > 0 && !(n <= |s| && s[..n] in table) {
      LongestInitialismFound(s, n - 1, table);
    }
  }

  /** The initialism found is a prefix of `s`. */
  lemma {:induction false} LongestInitialismPrefix(s: string, n: nat, table: set<string>)
    ensures IsPrefix(LongestInitialismUpTo(s, n, table), s)
    decreases n
  {
    if n > 0 && !(n <= |s| && s[..n] in table) {
      LongestInitialismPrefix(s, n - 1, table);
    }
  }

  /** No longer prefix of length at most `n` is in the table. */
  lemma {:induction false} LongestInitialismMaximal(s: string, n: nat, m: nat, table: set<string>)
    requires |LongestInitialismUpTo(s, n, table)| < m <= n && m <= |s|
    ensures s[..m] !in table
    decreases n
  {
    if !(n <= |s| && s[..n] in table) && m < n {
      LongestInitialismMaximal(s, n - 1, m, table);
    }
  }

  /** No initialism is longer than five characters, so this is the longest
      initialism that `s` starts with, or "". */
  function LongestInitialism(s: string, table: set<string>): string {
    LongestInitialismUpTo(s, 5, table)
  }

  /** startsWithInitialism: tries the prefixes of length 1 to 5 in turn and
      keeps the last one found in the table. The table is a parameter; the
      program passes commonInitialisms. */
  method StartsWithInitialism(s: string, table: set<string>) returns (initialism: string)
    ensures initialism == LongestInitialism(s, table)
  {
    initialism := "";
    var i := 1;
    while i <= 5
      invariant 1 <= i <= 6
      invariant initialism == LongestInitialismUpTo(s, i - 1, table)
    {
      if |s| > i - 1 && s[..i] in table {
        initialism := s[..i];
      }
      i := i + 1;
    }
  }

  /** The first index at or after `from` holding an upper-case letter, or |s|. */
  function NextUpper(s: string, from: nat): (p: nat)
    requires from <= |s|
    ensures from <= p <= |s|
    ensures p < |s| ==> IsUpper(s[p])
    ensures forall j :: from <= j < p ==> !IsUpper(s[j])
    decreases |s| - from
  {
    if from == |s| || IsUpper(s[from]) then from else NextUpper(s, from + 1)
  }

  /** The words camelToSnake cuts `s` into: at each word start, the longest
      initialism the rest begins with, if any; otherwise everything up to the
      next upper-case letter after the word's first character. */
  function Words(s: string, table: set<string>): (ws: seq<string>)
    ensures Concat(ws) == s
    ensures forall i :: 0 <= i < |ws| ==> ws[i] != ""
    decreases |s|
  {
    if s == "" then []
    else
      var ini := LongestInitialism(s, table);
      LongestInitialismPrefix(s, 5, table);
      if ini != "" then
        assert s == ini + s[|ini|..];
        [ini] + Words(s[|ini|..], table)
      else
        var q := NextUpper(s, 1);
        [s[..q]] + Words(s[q..], table)
  }

  function LowerAll(ws: seq<string>): (r: seq<string>)
    ensures |r| == |ws|
    ensures forall i :: 0 <= i < |ws| ==> r[i] == Lower(ws[i])
  {
    seq(|ws|, i requires 0 <= i < |ws| => Lower(ws[i]))
  }

  /** The snake-case form under a given table: the lower-cased words joined
      by single underscores. */
  function SnakeCaseWith(s: string, table: set<string>): string {
    Join(LowerAll(Words(s, table)), "_")
  }

  /** The snake-case form camelToSnake produces. */
  function SnakeCase(s: string): string {
    SnakeCaseWith(s, CommonInitialisms)
  }

  /** A word whose letters after the first are not upper-case. */
  predicate NoInnerUpper(w: string) {
    forall j :: 0 < j < |w| ==> !IsUpper(w[j])
  }

  /** A declarative description of a camel-case split, independent of Words,
      word by word: every word is non-empty; a word is either an initialism
      or has no upper-case letter after its first; a word that is not an
      initialism is followed by a word starting with an upper-case letter;
      and a word is an initialism exactly when the text from it onwards
      starts with one, in which case it is the longest such initialism. */
  ghost predicate WellSplit(ws: seq<string>, table: set<string>)
    decreases |ws|
  {
    ws != [] ==>
      var w, rest := ws[0], ws[1..];
      && w != ""
      && (w in table || NoInnerUpper(w))
      && (rest != [] ==> w in table || (rest[0] != "" && IsUpper(rest[0][0])))
      && (if w in table then w == LongestInitialism(w + Concat(rest), table)
          else LongestInitialism(w + Concat(rest), table) == "")
      && WellSplit(rest, table)
  }

  /** A word without inner upper-case letters is never an initialism. */
  lemma PlainIsNotInitialism(w: string, table: set<string>)
    requires Shaped(table)
    requires w != "" && NoInnerUpper(w)
    ensures w !in table
  {
  }

  /** A non-empty text with no upper-case letter after its first character is
      a single word. */
  lemma {:induction false} WordsOfPlain(s: string, table: set<string>)
    requires Shaped(table)
    requires s != "" && NoInnerUpper(s)
    ensures Words(s, table) == [s]
  {
    var ini := LongestInitialism(s, table);
    LongestInitialismFound(s, 5, table);
    LongestInitialismPrefix(s, 5, table);
    var q := NextUpper(s, 1);
    assert q == |s|;
    assert s[..q] == s && s[q..] == "";
  }

  /** Words meets the declarative description. */
  lemma {:induction false} WordsWellSplit(s: string, table: set<string>)
    requires Shaped(table)
    ensures WellSplit(Words(s, table), table)
    decreases |s|
  {
    if s != "" {
      var ini := LongestInitialism(s, table);
      LongestInitialismFound(s, 5, table);
      LongestInitialismPrefix(s, 5, table);
      var w, t;
      if ini != "" {
        w, t := ini, s[|ini|..];
      } else {
        var q := NextUpper(s, 1);
        w, t := s[..q], s[q..];
        assert NoInnerUpper(w);
        PlainIsNotInitialism(w, table);
      }
      assert Words(s, table) == [w] + Words(t, table);
      assert s == w + t;
      WordsWellSplit(t, table);
      var rest := Words(t, table);
      if rest != [] {
        assert rest[0][0] == t[0] by {
          assert Concat(rest) == rest[0] + Concat(rest[1..]);
        }
        if ini == "" {
          assert t[0] == s[NextUpper(s, 1)];
        }
      }
      assert ([w] + rest)[1..] == rest;
    }
  }

  /** The declarative description determines the words: any split meeting it
      is the one Words computes. */
  lemma {:induction false} WellSplitUnique(s: string, ws: seq<string>, table: set<string>)
    requires WellSplit(ws, table) && Concat(ws) == s
    ensures ws == Words(s, table)
    decreases |s|
  {
    if ws != [] {
      var w, rest := ws[0], ws[1..];
      var t := Concat(rest);
      assert s == w + t;
      var ini := LongestInitialism(s, table);
      if w in table {
        assert w == ini;
        assert s[|ini|..] == t;
      } else {
        assert ini == "";
        var q := NextUpper(s, 1);
        if rest == [] {
          assert t == "";
          assert s[..q] == w by {
            assert forall j :: 0 < j < |s| ==> !IsUpper(s[j]);
          }
        } else {
          assert IsUpper(rest[0][0]);
          assert t == rest[0] + Concat(rest[1..]);
          assert s[|w|] == rest[0][0];
          assert q == |w|;
          assert s[..q] == w && s[q..] == t;
        }
      }
      WellSplitUnique(t, rest, table);
      assert ws == [w] + rest;
    }
  }

  /** At an upper-case letter `i` reached with no upper-case letter since the
      word start `lastPos`, an initialism at the word start must begin right
      before `i` (its second letter is upper-case), and it is the next word. */
  lemma InitialismWord(s: string, lastPos: nat, i: nat, ini: string, table: set<string>)
    requires Shaped(table)
    requires lastPos < i < |s| && IsUpper(s[i])
    requires forall j :: lastPos < j < i ==> !IsUpper(s[j])
    requires ini == LongestInitialism(s[lastPos..], table) && ini != ""
    ensures i == lastPos + 1
    ensures lastPos + |ini| <= |s|
    ensures Words(s[lastPos..], table) == [ini] + Words(s[lastPos + |ini|..], table)
  {
    var rest := s[lastPos..];
    LongestInitialismFound(rest, 5, table);
    LongestInitialismPrefix(rest, 5, table);
    assert rest[1] == ini[1];
    assert rest[|ini|..] == s[lastPos + |ini|..];
  }

  /** At an upper-case letter `i` reached with no upper-case letter since the
      word start `lastPos` and no initialism at the word start, the next word
      is the text from `lastPos` up to `i`. */
  lemma PlainWord(s: string, lastPos: nat, i: nat, table: set<string>)
    requires lastPos < i < |s| && IsUpper(s[i])
    requires forall j :: lastPos < j < i ==> !IsUpper(s[j])
    requires LongestInitialism(s[lastPos..], table) == ""
    ensures Words(s[lastPos..], table) == [s[lastPos..i]] + Words(s[i..], table)
  {
    var rest := s[lastPos..];
    var q := NextUpper(rest, 1);
    assert IsUpper(rest[i - lastPos]);
    assert q == i - lastPos;
    assert rest[..q] == s[lastPos..i];
    assert rest[q..] == s[i..];
  }

  /** The state of camelToSnake's first loop: `words` are the words of `s`
      before the current word start `lastPos`, and no upper-case letter
      occurs strictly between `lastPos` and the scan position `i`. */
  ghost predicate Progress(s: string, words: seq<string>, lastPos: nat, i: nat, table: set<string>) {
    && lastPos <= |s|
    && (i == 0 ==> lastPos == 0)
    && (i != 0 ==> lastPos < i <= |s| + 1)
    && (forall j :: lastPos < j < i && j < |s| ==> !IsUpper(s[j]))
    && words + Words(s[lastPos..], table) == Words(s, table)
  }

  lemma ProgressStart(s: string, table: set<string>)
    ensures Progress(s, [], 0, 0, table)
  {
    assert s[0..] == s;
    assert [] + Words(s, table) == Words(s, table);
  }

  lemma SnocWord(words: seq<string>, w: string, tail: seq<string>, all: seq<string>)
    requires words + ([w] + tail) == all
    ensures (words + [w]) + tail == all
  {
    assert (words + [w]) + tail == words + ([w] + tail);
  }

  lemma ProgressSkip(s: string, words: seq<string>, lastPos: nat, i: nat, table: set<string>)
    requires Progress(s, words, lastPos, i, table) && i < |s|
    requires i == 0 || !IsUpper(s[i])
    ensures Progress(s, words, lastPos, i + 1, table)
  {
  }

  /** Taking the initialism at the word start as the next word; the scan
      resumes after it. */
  lemma ProgressInitialism(s: string, words: seq<string>, lastPos: nat, i: nat, ini: string, table: set<string>,
                           words': seq<string>, lastPos': nat, i': nat)
    requires Shaped(table)
    requires Progress(s, words, lastPos, i, table) && 0 < i < |s| && IsUpper(s[i])
    requires ini == LongestInitialism(s[lastPos..], table) && ini != ""
    requires words' == words + [ini] && lastPos' == i + |ini| - 1 && i' == lastPos' + 1
    ensures Progress(s, words', lastPos', i', table)
  {
    InitialismWord(s, lastPos, i, ini, table);
    assert lastPos' == lastPos + |ini|;
    assert s[lastPos'..] == s[lastPos + |ini|..];
    SnocWord(words, ini, Words(s[lastPos'..], table), Words(s, table));
  }

  /** Closing the current word at the upper-case letter `i`. */
  lemma ProgressPlain(s: string, words: seq<string>, lastPos: nat, i: nat, table: set<string>)
    requires Progress(s, words, lastPos, i, table) && 0 < i < |s| && IsUpper(s[i])
    requires LongestInitialism(s[lastPos..], table) == ""
    ensures Progress(s, words + [s[lastPos..i]], i, i + 1, table)
  {
    PlainWord(s, lastPos, i, table);
    SnocWord(words, s[lastPos..i], Words(s[i..], table), Words(s, table));
  }

  /** When the scan is over, the text from the last word start is the last
      word, if it is not empty. */
  lemma ProgressDone(s: string, words: seq<string>, lastPos: nat, i: nat, table: set<string>)
    requires Shaped(table)
    requires Progress(s, words, lastPos, i, table) && i >= |s|
    ensures s[lastPos..] == "" ==> words == Words(s, table)
    ensures s[lastPos..] != "" ==> words + [s[lastPos..]] == Words(s, table)
  {
    if s[lastPos..] != "" {
      assert NoInnerUpper(s[lastPos..]) by {
        forall j | 0 < j < |s[lastPos..]|
          ensures !IsUpper(s[lastPos..][j])
        {
          assert s[lastPos..][j] == s[lastPos + j];
        }
      }
      WordsOfPlain(s[lastPos..], table);
    } else {
      assert words + [] == words;
    }
  }

  /** One step of camelToSnake's second loop. */
  lemma SnakeStep(words: seq<string>, k: nat)
    requires k < |words|
    ensures Join(LowerAll(words[..k + 1]), "_") ==
      (if k == 0 then "" else Join(LowerAll(words[..k]), "_") + "_") + Lower(words[k])
  {
    assert LowerAll(words[..k + 1]) == LowerAll(words[..k]) + [Lower(words[k])];
    JoinSnoc(LowerAll(words[..k]), Lower(words[k]), "_");
    if k == 0 {
      assert "" + Lower(words[k]) == Lower(words[k]);
    }
  }

  /** camelToSnake over a given initialism table. The first loop cuts `s`
      into words: at every upper-case letter after index 0 it either takes
      the initialism the current word starts with (and skips over it) or
      closes the current word; the second loop lower-cases the words and joins
      them with underscores. */
  method CamelToSnakeWith(s: string, table: set<string>) returns (result: string)
    requires Shaped(table)
    ensures result == SnakeCaseWith(s, table)
  {
    var words: seq<string> := [];
    var lastPos: nat := 0;
    var i: nat := 0;
    ProgressStart(s, table);
    while i < |s|
      invariant Progress(s, words, lastPos, i, table)
      decreases |s| + 1 - i
    {
      if i > 0 && IsUpper(s[i]) {
        var initialism := StartsWithInitialism(s[lastPos..], table);
        if initialism != "" {
          ghost var words0, lastPos0, i0 := words, lastPos, i;
          words := words + [initialism];
          i := i + |initialism| - 1;
          lastPos := i;
          ProgressInitialism(s, words0, lastPos0, i0, initialism, table, words, lastPos, i + 1);
        } else {
          ProgressPlain(s, words, lastPos, i, table);
          words := words + [s[lastPos..i]];
          lastPos := i;
        }
      } else {
        ProgressSkip(s, words, lastPos, i, table);
      }
      i := i + 1;
    }
    // the text after the last boundary is the final word
    ProgressDone(s, words, lastPos, i, table);
    if s[lastPos..] != "" {
      words := words + [s[lastPos..]];
    }

    result := "";
    var k := 0;
    while k < |words|
      invariant 0 <= k <= |words|
      invariant result == Join(LowerAll(words[..k]), "_")
    {
      SnakeStep(words, k);
      if k > 0 {
        result := result + "_";
      }
      result := result + Lower(words[k]);
      k := k + 1;
    }
    assert words[..k] == words;
  }

  /** camelToSnake, with commonInitialisms. */
  method CamelToSnake(s: string) returns (result: string)
    ensures result == SnakeCase(s)
    ensures s == "" ==> result == ""
  {
    CommonInitialismsShaped();
    result := CamelToSnakeWith(s, CommonInitialisms);
  }

  /** Joining strings none of whose characters is upper-case, with a separator
      that has none either, gives a string without upper-case letters. */
  lemma {:induction false} JoinNoUpper(ws: seq<string>, sep: string)
    requires forall i, j :: 0 <= i < |ws| && 0 <= j < |ws[i]| ==> !IsUpper(ws[i][j])
    requires forall j :: 0 <= j < |sep| ==> !IsUpper(sep[j])
    ensures forall j :: 0 <= j < |Join(ws, sep)| ==> !IsUpper(Join(ws, sep)[j])
  {
    if |ws| >= 2 {
      JoinNoUpper(ws[1..], sep);
      var tail := Join(ws[1..], sep);
      assert Join(ws, sep) == ws[0] + sep + tail;
      forall j | 0 <= j < |Join(ws, sep)|
        ensures !IsUpper(Join(ws, sep)[j])
      {
        if j < |ws[0]| {
        } else if j < |ws[0]| + |sep| {
        } else {
          assert Join(ws, sep)[j] == tail[j - |ws[0]| - |sep|];
        }
      }
    }
  }

  /** The snake-case form contains no upper-case letter. */
  lemma SnakeCaseNoUpper(s: string)
    ensures forall j :: 0 <= j < |SnakeCase(s)| ==> !IsUpper(SnakeCase(s)[j])
  {
    JoinNoUpper(LowerAll(Words(s, CommonInitialisms)), "_");
  }

  lemma {:induction false} RemoveJoin(ws: seq<string>, c: char)
    ensures Remove(Join(ws, [c]), c) == Remove(Concat(ws), c)
  {
    if |ws| == 1 {
      assert ws[1..] == [];
      assert Concat(ws) == ws[0] + "";
      assert ws[0] + "" == ws[0];
    } else if |ws| >= 2 {
      RemoveJoin(ws[1..], c);
      var t := Join(ws[1..], [c]);
      assert Remove([c], c) == "" by {
        assert [c][1..] == "";
      }
      calc {
        Remove(Join(ws, [c]), c);
        { assert Join(ws, [c]) == ws[0] + ([c] + t); }
        Remove(ws[0] + ([c] + t), c);
        { RemoveAppend(ws[0], [c] + t, c); }
        Remove(ws[0], c) + Remove([c] + t, c);
        { RemoveAppend([c], t, c); }
        Remove(ws[0], c) + Remove(Concat(ws[1..]), c);
        { RemoveAppend(ws[0], Concat(ws[1..]), c); }
        Remove(Concat(ws), c);
      }
    }
  }

  lemma {:induction false} ConcatLowerAll(ws: seq<string>)
    ensures Concat(LowerAll(ws)) == Lower(Concat(ws))
  {
    if ws != [] {
      ConcatLowerAll(ws[1..]);
      assert LowerAll(ws)[1..] == LowerAll(ws[1..]);
      LowerAppend(ws[0], Concat(ws[1..]));
    }
  }

  /** Deleting the underscores from the snake-case form gives the lower-cased
      input with its own underscores deleted: camelToSnake only lower-cases
      and inserts separators. */
  lemma SnakeCaseErasesToLower(s: string)
    ensures Remove(SnakeCase(s), '_') == Remove(Lower(s), '_')
  {
    var ws := Words(s, CommonInitialisms);
    RemoveJoin(LowerAll(ws), '_');
    ConcatLowerAll(ws);
  }

  /** Every character of a join is a separator character or a character of
      one of the pieces. */
  lemma {:induction false} JoinChars(ws: seq<string>, c: char, x: char)
    requires x in Join(ws, [c])
    ensures x == c || x in Concat(ws)
  {
    if |ws| == 1 {
      assert Concat(ws) == ws[0] + Concat([]);
    } else if |ws| >= 2 {
      assert Join(ws, [c]) == ws[0] + [c] + Join(ws[1..], [c]);
      assert Concat(ws) == ws[0] + Concat(ws[1..]);
      if x !in ws[0] && x != c {
        JoinChars(ws[1..], c, x);
      }
    }
  }

  /** A name made of ASCII letters and digits becomes a name made of ASCII
      lower-case letters, digits and underscores. */
  lemma SnakeCaseAlphabet(s: string)
    requires forall j :: 0 <= j < |s| ==> IsUpper(s[j]) || IsASCIILower(s[j]) || IsASCIIDigit(s[j])
    ensures forall x :: x in SnakeCase(s) ==> IsASCIILower(x) || IsASCIIDigit(x) || x == '_'
  {
    var ws := Words(s, CommonInitialisms);
    ConcatLowerAll(ws);
    forall x | x in SnakeCase(s)
      ensures IsASCIILower(x) || IsASCIIDigit(x) || x == '_'
    {
      JoinChars(LowerAll(ws), '_', x);
      if x != '_' {
        var j :| 0 <= j < |Lower(s)| && Lower(s)[j] == x;
        assert x == LowerChar(s[j]);
      }
    }
  }

  /** A text whose second character is not upper-case starts with no
      initialism. */
  lemma NoInitialismBeforeLower(s: string, table: set<string>)
    requires Shaped(table) && |s| >= 2 && !IsUpper(s[1])
    ensures LongestInitialism(s, table) == ""
  {
    LongestInitialismFound(s, 5, table);
    LongestInitialismPrefix(s, 5, table);
  }

  lemma WordsOfID(table: set<string>)
    requires "ID" in table
    ensures Words("ID", table) == ["ID"]
  {
    var u := "ID";
    assert u[..2] == "ID";
    assert LongestInitialismUpTo(u, 2, table) == "ID";
    assert LongestInitialismUpTo(u, 3, table) == "ID";
    assert LongestInitialismUpTo(u, 4, table) == "ID";
    assert LongestInitialism(u, table) == "ID";
    assert u[2..] == "";
  }

  lemma WordsOfKeyID(table: set<string>)
    requires Shaped(table) && "ID" in table
    ensures Words("KeyID", table) == ["Key", "ID"]
  {
    var t := "KeyID";
    NoInitialismBeforeLower(t, table);
    assert !IsUpper(t[1]) && !IsUpper(t[2]) && IsUpper(t[3]);
    assert NextUpper(t, 3) == 3;
    assert NextUpper(t, 2) == 3;
    assert NextUpper(t, 1) == 3;
    assert t[..3] == "Key" && t[3..] == "ID";
    WordsOfID(table);
  }

  lemma WordsOfApiKeyID(table: set<string>)
    requires Shaped(table) && "API" in table && "ID" in table && "APIKe" !in table && "APIK" !in table
    ensures Words("APIKeyID", table) == ["API", "Key", "ID"]
  {
    var s := "APIKeyID";
    assert s[..5] == "APIKe" && s[..4] == "APIK" && s[..3] == "API";
    assert LongestInitialismUpTo(s, 3, table) == "API";
    assert LongestInitialismUpTo(s, 4, table) == "API";
    assert LongestInitialism(s, table) == "API";
    assert s[3..] == "KeyID";
    WordsOfKeyID(table);
    assert Words(s, table) == ["API"] + ["Key", "ID"];
  }

  lemma CommonInitialismsSample()
    ensures "API" in CommonInitialisms && "ID" in CommonInitialisms
    ensures "APIKe" !in CommonInitialisms && "APIK" !in CommonInitialisms
  {
  }

  /** "APIKeyID" splits into "API", "Key" and "ID" and becomes "api_key_id". */
  lemma ApiKeyIdExample()
    ensures Words("APIKeyID", CommonInitialisms) == ["API", "Key", "ID"]
    ensures SnakeCase("APIKeyID") == "api_key_id"
  {
    CommonInitialismsShaped();
    CommonInitialismsSample();
    WordsOfApiKeyID(CommonInitialisms);
    ApiKeyIdJoined();
  }

  lemma ApiKeyIdJoined()
    ensures Join(LowerAll(["API", "Key", "ID"]), "_") == "api_key_id"
  {
    assert Lower("API") == "api";
    assert Lower("Key") == "key";
    assert Lower("ID") == "id";
    assert LowerAll(["API", "Key", "ID"]) == ["api", "key", "id"];
  }

  /** deModel: every occurrence of "Model", found left to right without
      overlap, is removed. */
  function DeModel(s: string): (r: string)
    ensures |r| <= |s|
    decreases |s|
  {
    if |s| >= 5 && s[..5] == "Model" then DeModel(s[5..])
    else if s == "" then ""
    else [s[0]] + DeModel(s[1..])
  }

  predicate ModelAt(s: string, i: nat) {
    i + 5 <= |s| && s[i..i + 5] == "Model"
  }

  predicate ContainsModel(s: string) {
    exists i :: 0 <= i < |s| && ModelAt(s, i)
  }

  /** Text without "Model" passes through deModel unchanged. */
  lemma {:induction false} DeModelIdentity(s: string)
    requires !ContainsModel(s)
    ensures DeModel(s) == s
    decreases |s|
  {
    if s != "" {
      assert !(|s| >= 5 && s[..5] == "Model") by {
        if |s| >= 5 {
          assert !ModelAt(s, 0);
          assert s[0..5] == s[..5];
        }
      }
      assert !ContainsModel(s[1..]) by {
        forall i: nat | ModelAt(s[1..], i)
          ensures false
        {
          assert s[1..][i..i + 5] == s[i + 1..i + 1 + 5];
          assert ModelAt(s, i + 1);
        }
      }
      DeModelIdentity(s[1..]);
      assert [s[0]] + s[1..] == s;
    }
  }

  /** deModel drops an occurrence of "Model" and treats the text on either side
      independently: "Model" cannot overlap itself, so no occurrence straddles
      the boundary. */
  lemma {:induction false} DeModelSplice(a: string, b: string)
    ensures DeModel(a + "Model" + b) == DeModel(a) + DeModel(b)
    decreases |a|
  {
    var s := a + "Model" + b;
    if a == "" {
      assert s == "Model" + b;
      assert s[..5] == "Model" && s[5..] == b;
    } else if |a| >= 5 && a[..5] == "Model" {
      assert s[..5] == a[..5];
      assert s[5..] == a[5..] + "Model" + b;
      calc {
        DeModel(s);
        DeModel(a[5..] + "Model" + b);
        { DeModelSplice(a[5..], b); }
        DeModel(a[5..]) + DeModel(b);
      }
    } else {
      assert !(|s| >= 5 && s[..5] == "Model") by {
        if |a| >= 5 {
          assert s[..5] == a[..5];
        } else {
          NoModelAcross(a, b);
        }
      }
      assert s[0] == a[0];
      assert s[1..] == a[1..] + "Model" + b;
      calc {
        DeModel(s);
        [a[0]] + DeModel(a[1..] + "Model" + b);
        { DeModelSplice(a[1..], b); }
        [a[0]] + (DeModel(a[1..]) + DeModel(b));
        ([a[0]] + DeModel(a[1..])) + DeModel(b);
        DeModel(a) + DeModel(b);
      }
    }
  }

  /** An occurrence starting inside a short prefix `a` would run into the
      "Model" that follows `a`, whose first letter is 'M'. */
  lemma NoModelAcross(a: string, b: string)
    requires 0 < |a| < 5
    ensures (a + "Model" + b)[..5] != "Model"
  {
    var s := a + "Model" + b;
    assert s[|a|] == 'M';
    assert s[..5][|a|] == s[|a|];
    assert "Model"[|a|] != 'M';
  }

  /** unexport: the first character lower-cased. Go slices s[0:1], which is
      out of range for the empty string. */
  function Unexport(s: string): (r: Outcome<string>)
    ensures s == "" <==> r.OutOfRange?
    ensures r.Ok? ==> |r.value| == |s| && Lower(r.value) == Lower(s)
    ensures r.Ok? ==> r.value[0] == LowerChar(s[0]) && r.value[1..] == s[1..]
  {
    if s == "" then OutOfRange(1, 0)
    else
      var r := Lower(s[0..1]) + s[1..];
      assert r[0] == LowerChar(s[0]);
      assert r[1..] == s[1..];
      assert forall j :: 0 <= j < |s| ==> Lower(r)[j] == Lower(s)[j];
      Ok(r)
  }

  /** Unexporting twice is the same as unexporting once. */
  lemma UnexportIdempotent(s: string)
    requires s != ""
    ensures Unexport(Unexport(s).value) == Unexport(s)
  {
    var r := Unexport(s).value;
    assert r[0..1] == Lower(s[0..1]);
    assert r[1..] == s[1..];
    assert Lower(r[0..1]) == r[0..1] by {
      assert Lower(r[0..1])[0] == LowerChar(r[0]);
    }
  }
}
