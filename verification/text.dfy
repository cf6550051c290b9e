/** The text handling app/graphs.py applies before counting words:
    lower-casing, deleting every character that is neither a letter nor
    whitespace, splitting on whitespace and joining with single spaces, over
    ASCII characters. */
module Text {

  /** Python's whitespace among ASCII characters: tab, newline, vertical tab,
      form feed, carriage return, the four separators 0x1C-0x1F and space.
      Both `\s` and `str.split()` treat exactly these as whitespace. */
  predicate IsSpace(c: char) {
    var n := c as int;
    n == 32 || 9 <= n <= 13 || 28 <= n <= 31
  }

  predicate IsUpper(c: char) { 'A' <= c <= 'Z' }
  predicate IsLowerLetter(c: char) { 'a' <= c <= 'z' }
  /** `[A-Za-z]`, and `str.isalpha()` on ASCII. */
  predicate IsLetter(c: char) { IsUpper(c) || IsLowerLetter(c) }

  /** `str.isalpha()`: non-empty and letters only. */
  predicate IsAlpha(w: string) {
    |w| > 0 && forall k :: 0 <= k < |w| ==> IsLetter(w[k])
  }

  /** ASCII `lower()` of one character. */
  function LowerChar(c: char): (d: char)
    ensures IsUpper(c) ==> IsLowerLetter(d) && d as int == c as int + 32
    ensures !IsUpper(c) ==> d == c
  {
    if IsUpper(c) then (c as int + 32) as char else c
  }

  /** `s.lower()`. */
  function Lower(s: string): (r: string)
    ensures |r| == |s|
    ensures forall k :: 0 <= k < |s| ==> r[k] == LowerChar(s[k])
  {
    seq(|s|, k requires 0 <= k < |s| => LowerChar(s[k]))
  }

  /** The regular-expression deletion: every character that is neither a
      letter nor whitespace is removed, the others stay in order. */
  function KeepLettersAndSpaces(s: string): (r: string)
    ensures forall k :: 0 <= k < |r| ==> IsLetter(r[k]) || IsSpace(r[k])
    ensures |r| <= |s|
    decreases |s|
  {
    if |s| == 0 then []
    else if IsLetter(s[0]) || IsSpace(s[0]) then [s[0]] + KeepLettersAndSpaces(s[1..])
    else KeepLettersAndSpaces(s[1..])
  }

  /** The normalisation graphs.py applies to the joined text: lower-case, then
      delete everything but letters and whitespace. Only lower-case letters
      and whitespace are left. */
  function Clean(s: string): (r: string)
    ensures forall k :: 0 <= k < |r| ==> IsLowerLetter(r[k]) || IsSpace(r[k])
  {
    var l := Lower(s);
    var r := KeepLettersAndSpaces(l);
    KeepLettersAndSpacesFrom(l);
    r
  }

  /** Every character `KeepLettersAndSpaces` keeps comes from its input. */
  lemma {:induction false} KeepLettersAndSpacesFrom(s: string)
    ensures forall k :: 0 <= k < |KeepLettersAndSpaces(s)| ==> KeepLettersAndSpaces(s)[k] in s
    decreases |s|
  {
    if |s| > 0 {
      KeepLettersAndSpacesFrom(s[1..]);
      var rest := KeepLettersAndSpaces(s[1..]);
      forall k | 0 <= k < |rest| ensures rest[k] in s {
        assert rest[k] in s[1..];
      }
    }
  }

  /** Length of the run of non-whitespace characters at the start of `s`. */
  function WordLength(s: string): (n: nat)
    ensures n <= |s|
    ensures forall k :: 0 <= k < n ==> !IsSpace(s[k])
    ensures n < |s| ==> IsSpace(s[n])
    decreases |s|
  {
    if |s| == 0 || IsSpace(s[0]) then 0 else 1 + WordLength(s[1..])
  }

  /** `s.split()`: the maximal runs of non-whitespace characters, in order.
      No word is empty or holds whitespace, and every character of a word
      comes from `s`. */
  function Split(s: string): (ws: seq<string>)
    ensures forall i :: 0 <= i < |ws| ==> |ws[i]| > 0
    ensures forall i, k :: 0 <= i < |ws| && 0 <= k < |ws[i]| ==> !IsSpace(ws[i][k]) && ws[i][k] in s
    decreases |s|
  {
    if |s| == 0 then []
    else if IsSpace(s[0]) then
      var ws := Split(s[1..]);
      assert forall i, k :: 0 <= i < |ws| && 0 <= k < |ws[i]| ==> ws[i][k] in s[1..];
      ws
    else
      var n := WordLength(s);
      var ws := Split(s[n..]);
      assert forall i, k :: 0 <= i < |ws| && 0 <= k < |ws[i]| ==> ws[i][k] in s[n..];
      [s[..n]] + ws
  }

  /** A run of non-whitespace characters is one word as long as the run. */
  lemma {:induction false} WordLengthOfWord(w: string)
    requires forall k :: 0 <= k < |w| ==> !IsSpace(w[k])
    ensures WordLength(w) == |w|
    decreases |w|
  {
    if |w| > 0 {
      WordLengthOfWord(w[1..]);
    }
  }

  /** A non-empty text without whitespace is a single word. */
  lemma SplitWord(w: string)
    requires |w| > 0 && forall k :: 0 <= k < |w| ==> !IsSpace(w[k])
    ensures Split(w) == [w]
  {
    WordLengthOfWord(w);
    assert w[..|w|] == w;
    assert w[|w|..] == [];
  }

  /** A text of whitespace only has no words. */
  lemma {:induction false} SplitBlank(s: string)
    requires forall k :: 0 <= k < |s| ==> IsSpace(s[k])
    ensures Split(s) == []
    decreases |s|
  {
    if |s| > 0 {
      SplitBlank(s[1..]);
    }
  }

  /** All characters of `s` except whitespace, in order. */
  function NonSpace(s: string): string
    decreases |s|
  {
    if |s| == 0 then [] else (if IsSpace(s[0]) then [] else [s[0]]) + NonSpace(s[1..])
  }

  /** Concatenation of a list of strings. */
  function Flatten(ws: seq<string>): string
    decreases |ws|
  {
    if |ws| == 0 then [] else ws[0] + Flatten(ws[1..])
  }

  /** Splitting loses nothing but whitespace. */
  lemma {:induction false} SplitKeepsNonSpace(s: string)
    ensures Flatten(Split(s)) == NonSpace(s)
    decreases |s|
  {
    if |s| > 0 && !IsSpace(s[0]) {
      var n := WordLength(s);
      SplitKeepsNonSpace(s[n..]);
      NonSpaceWord(s, n);
    } else if |s| > 0 {
      SplitKeepsNonSpace(s[1..]);
    }
  }

  lemma {:induction false} NonSpaceAppend(a: string, b: string)
    ensures NonSpace(a + b) == NonSpace(a) + NonSpace(b)
    decreases |a|
  {
    if |a| > 0 {
      assert (a + b)[1..] == a[1..] + b;
      NonSpaceAppend(a[1..], b);
    } else {
      assert a + b == b;
    }
  }

  lemma {:induction false} NonSpaceOfWord(w: string)
    requires forall k :: 0 <= k < |w| ==> !IsSpace(w[k])
    ensures NonSpace(w) == w
    decreases |w|
  {
    if |w| > 0 {
      NonSpaceOfWord(w[1..]);
    }
  }

  lemma NonSpaceWord(s: string, n: nat)
    requires n <= |s| && forall k :: 0 <= k < n ==> !IsSpace(s[k])
    ensures NonSpace(s) == s[..n] + NonSpace(s[n..])
  {
    assert s == s[..n] + s[n..];
    NonSpaceAppend(s[..n], s[n..]);
    NonSpaceOfWord(s[..n]);
  }

  /** `a + c + b` with `c` whitespace splits into the words of `a` followed
      by the words of `b`: no word spans the separator. */
  lemma {:induction false} SplitAround(a: string, c: char, b: string)
    requires IsSpace(c)
    ensures Split(a + [c] + b) == Split(a) + Split(b)
    decreases |a|
  {
    var s := a + [c] + b;
    if |a| == 0 {
      assert s[1..] == b;
    } else if IsSpace(a[0]) {
      assert s[1..] == a[1..] + [c] + b;
      SplitAround(a[1..], c, b);
    } else {
      var n := WordLength(a);
      WordLengthPrefix(a, c, b);
      assert s[..n] == a[..n];
      assert s[n..] == a[n..] + [c] + b;
      SplitAround(a[n..], c, b);
    }
  }

  lemma {:induction false} WordLengthPrefix(a: string, c: char, b: string)
    requires IsSpace(c)
    ensures WordLength(a + [c] + b) == WordLength(a)
    decreases |a|
  {
    if |a| > 0 && !IsSpace(a[0]) {
      assert (a + [c] + b)[1..] == a[1..] + [c] + b;
      WordLengthPrefix(a[1..], c, b);
    }
  }

  /** Lower-casing works character by character. */
  lemma LowerAppend(a: string, b: string)
    ensures Lower(a + b) == Lower(a) + Lower(b)
  {
  }

  lemma {:induction false} KeepAppend(a: string, b: string)
    ensures KeepLettersAndSpaces(a + b) == KeepLettersAndSpaces(a) + KeepLettersAndSpaces(b)
    decreases |a|
  {
    if |a| > 0 {
      assert (a + b)[1..] == a[1..] + b;
      KeepAppend(a[1..], b);
    } else {
      assert a + b == b;
    }
  }

  /** Normalising a text of pieces normalises each piece; a whitespace
      separator survives unchanged. */
  lemma CleanAround(a: string, c: char, b: string)
    requires IsSpace(c)
    ensures Clean(a + [c] + b) == Clean(a) + [c] + Clean(b)
  {
    LowerAppend(a + [c], b);
    LowerAppend(a, [c]);
    KeepAppend(Lower(a) + Lower([c]), Lower(b));
    KeepAppend(Lower(a), Lower([c]));
    assert Lower([c]) == [c];
    assert KeepLettersAndSpaces([c]) == [c];
  }

  /** Normalising one character: a letter is kept, lower-cased; whitespace
      is kept as it is; anything else is deleted. */
  lemma CleanChar(c: char)
    ensures Clean([c]) == if IsLetter(c) then [LowerChar(c)] else if IsSpace(c) then [c] else []
  {
    assert Lower([c]) == [LowerChar(c)];
    assert [LowerChar(c)][1..] == [];
  }

  /** Normalising works piece by piece. */
  lemma CleanAppend(a: string, b: string)
    ensures Clean(a + b) == Clean(a) + Clean(b)
  {
    LowerAppend(a, b);
    KeepAppend(Lower(a), Lower(b));
  }

  /** `" ".join(parts)`. */
  function Join(parts: seq<string>): string
    decreases |parts|
  {
    if |parts| == 0 then ""
    else if |parts| == 1 then parts[0]
    else parts[0] + " " + Join(parts[1..])
  }

  /** The words of a space-joined text are the words of its parts, in order. */
  lemma {:induction false} SplitCleanJoin(parts: seq<string>)
    ensures Split(Clean(Join(parts))) == SplitCleanEach(parts)
    decreases |parts|
  {
    if |parts| == 1 {
      assert parts[1..] == [];
    } else if |parts| > 1 {
      SplitCleanJoin(parts[1..]);
      CleanAround(parts[0], ' ', Join(parts[1..]));
      SplitAround(Clean(parts[0]), ' ', Clean(Join(parts[1..])));
    }
  }

  /** The words of each part, concatenated. */
  function SplitCleanEach(parts: seq<string>): seq<string>
    decreases |parts|
  {
    if |parts| == 0 then [] else Split(Clean(parts[0])) + SplitCleanEach(parts[1..])
  }
}
