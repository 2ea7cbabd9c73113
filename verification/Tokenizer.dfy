/** The in-place tokenizer of 392/minishell/version2/minishell.c: it cuts a line into C strings by
    overwriting white space with NUL and saves where each argument begins. */
module Tokenizer {

  predicate IsSpace(c: char) {
    c == ' ' || c == '\t' || c == '\n'
  }

  /** Entry of the argument vector that ends it. */
  const NULL: int := -1

  // ---- What is to be found ------------------------------------------------------------------

  /** A word begins at `i`: no white space there, and white space or nothing before. */
  predicate IsStart(s: string, i: nat)
    requires i < |s|
  {
    !IsSpace(s[i]) && (i == 0 || IsSpace(s[i - 1]))
  }

  /** The beginnings of words among the first `k` characters. */
  function Starts(s: string, k: nat): (ps: seq<nat>)
    requires k <= |s|
    ensures forall j :: 0 <= j < |ps| ==> ps[j] < k
  {
    if k == 0 then [] else Starts(s, k - 1) + (if IsStart(s, k - 1) then [k - 1] else [])
  }

  predicate EndsInSpace(s: string) {
    s != "" && IsSpace(s[|s| - 1])
  }

  /** The positions that are saved: the beginnings of the words, and the end of a line that ends in
      white space. */
  function Saved(s: string): (ps: seq<nat>)
    ensures forall j :: 0 <= j < |ps| ==> ps[j] <= |s|
  {
    Starts(s, |s|) + (if EndsInSpace(s) then [|s|] else [])
  }

  /** The characters from `i` up to white space or the end. */
  function WordAt(s: string, i: nat): (w: string)
    requires i <= |s|
    ensures forall k :: 0 <= k < |w| ==> !IsSpace(w[k])
    ensures i + |w| <= |s| && w == s[i..i + |w|]
    ensures i + |w| < |s| ==> IsSpace(s[i + |w|])
    decreases |s| - i
  {
    if i < |s| && !IsSpace(s[i]) then [s[i]] + WordAt(s, i + 1) else ""
  }

  /** The words of the line in order, and an empty one if the line ends in white space. */
  function Words(s: string): (ws: seq<string>)
    ensures |ws| == |Saved(s)|
    ensures forall j :: 0 <= j < |ws| ==> ws[j] == WordAt(s, Saved(s)[j])
  {
    seq(|Saved(s)|, j requires 0 <= j < |Saved(s)| => WordAt(s, Saved(s)[j]))
  }

  /** The saved beginnings are in ascending order, and they are all the beginnings there are. */
  lemma {:induction false} StartsExactly(s: string, k: nat)
    requires k <= |s|
    ensures forall i, j :: 0 <= i < j < |Starts(s, k)| ==> Starts(s, k)[i] < Starts(s, k)[j]
    ensures forall i: nat :: i < k ==> (i in Starts(s, k) <==> IsStart(s, i))
  {
    if k > 0 {
      StartsExactly(s, k - 1);
    }
  }

  lemma {:induction false} StartsPrefix(s: string, k: nat, m: nat)
    requires k <= m <= |s|
    ensures Starts(s, k) <= Starts(s, m)
    decreases m
  {
    if k < m {
      StartsPrefix(s, k, m - 1);
    }
  }

  lemma {:induction false} StartsBound(s: string, k: nat)
    requires k <= |s|
    ensures 2 * |Starts(s, k)| <= k + (if k > 0 && !IsSpace(s[k - 1]) then 1 else 0)
  {
    if k > 0 {
      StartsBound(s, k - 1);
    }
  }

  /** There are at most half as many arguments as characters, and one. */
  lemma {:induction false} SavedBound(s: string)
    ensures |Saved(s)| <= |s| / 2 + 1
  {
    StartsBound(s, |s|);
  }

  // ---- The tokenizer ------------------------------------------------------------------------

  /** The line is NUL-terminated and `text` is what comes before the NUL. */
  predicate Holds(line: seq<char>, text: string) {
    && |text| < |line| && line[..|text|] == text && line[|text|] == '\0' && '\0' !in text
  }

  /** The character at `k` with the white space before `p` overwritten. */
  function Cut(line: seq<char>, k: nat, p: nat): char
    requires k < |line|
  {
    if k < p && IsSpace(line[k]) then '\0' else line[k]
  }

  /** Lines 77 to 80: overwrites white space from `p` on. */
  method SkipSpace(line: array<char>, p: nat, ghost text: string, ghost orig: seq<char>) returns (q: nat)
    requires Holds(orig, text) && |orig| == line.Length && p <= |text|
    requires forall k :: 0 <= k < line.Length ==> line[k] == Cut(orig, k, p)
    modifies line
    ensures p <= q <= |text| && (q < |text| ==> !IsSpace(text[q]))
    ensures forall k :: p <= k < q ==> IsSpace(text[k])
    ensures forall k :: 0 <= k < line.Length ==> line[k] == Cut(orig, k, q)
  {
    q := p;
    while line[q] == ' ' || line[q] == '\t' || line[q] == '\n'
      invariant p <= q <= |text|
      invariant forall k :: p <= k < q ==> IsSpace(text[k])
      invariant forall k :: 0 <= k < line.Length ==> line[k] == Cut(orig, k, q)
      decreases |text| - q
    {
      assert orig[q] == text[q];
      line[q] := '\0';
      q := q + 1;
    }
    assert q < |text| ==> orig[q] == text[q];
  }

  /** Lines 82 to 84: moves over the rest of a word. */
  method SkipWord(line: array<char>, p: nat, ghost text: string, ghost orig: seq<char>) returns (q: nat)
    requires Holds(orig, text) && |orig| == line.Length && p <= |text|
    requires forall k :: 0 <= k < line.Length ==> line[k] == Cut(orig, k, p)
    ensures p <= q <= |text| && (q < |text| ==> IsSpace(text[q]))
    ensures forall k :: p <= k < q ==> !IsSpace(text[k])
    ensures forall k :: 0 <= k < line.Length ==> line[k] == Cut(orig, k, q)
  {
    q := p;
    while line[q] != '\0' && line[q] != ' ' && line[q] != '\t' && line[q] != '\n'
      invariant p <= q <= |text|
      invariant forall k :: p <= k < q ==> !IsSpace(text[k])
      invariant forall k :: 0 <= k < line.Length ==> line[k] == Cut(orig, k, q)
      decreases |text| - q
    {
      assert orig[q] == text[q];
      q := q + 1;
    }
    assert q < |text| ==> orig[q] == text[q];
  }

  /** No word begins in white space, or inside a word. */
  lemma {:induction false} NoStarts(s: string, k: nat, m: nat)
    requires k <= m <= |s|
    requires (forall i :: k <= i < m ==> IsSpace(s[i])) || (k > 0 && forall i :: k - 1 <= i < m ==> !IsSpace(s[i]))
    ensures Starts(s, m) == Starts(s, k)
    decreases m
  {
    if k < m {
      NoStarts(s, k, m - 1);
    }
  }

  /** What has been saved when the loop is at `p`. */
  function SavedBefore(s: string, p: nat): seq<nat>
    requires p <= |s|
  {
    if p < |s| then Starts(s, p) else Saved(s)
  }

  predicate AtWordEnd(s: string, p: nat) {
    p <= |s| && (0 < p < |s| ==> IsSpace(s[p]))
  }

  /** A round that finds white space up to the end of the line: it saves the end. */
  lemma {:induction false} LastRound(s: string, p: nat)
    requires AtWordEnd(s, p) && p < |s| && forall k :: p <= k < |s| ==> IsSpace(s[k])
    ensures Saved(s) == Starts(s, p) + [|s|]
  {
    NoStarts(s, p, |s|);
    assert EndsInSpace(s);
  }

  /** A round that finds white space from `p` to `q`, then a word from `q` to `r`. */
  lemma {:induction false} WordRound(s: string, p: nat, q: nat, r: nat)
    requires AtWordEnd(s, p) && p <= q < r <= |s|
    requires forall k :: p <= k < q ==> IsSpace(s[k])
    requires forall k :: q <= k < r ==> !IsSpace(s[k])
    ensures Starts(s, r) == Starts(s, p) + [q]
    ensures Starts(s, r) <= Saved(s) && (r == |s| ==> Starts(s, r) == Saved(s))
  {
    assert IsStart(s, q) by {
      if p < q {
        assert IsSpace(s[q - 1]);
      }
    }
    NoStarts(s, p, q);
    assert Starts(s, q + 1) == Starts(s, q) + [q];
    NoStarts(s, q + 1, r);
    StartsPrefix(s, r, |s|);
    if r == |s| {
      assert !IsSpace(s[r - 1]);
    }
  }

  /** A round that finds white space from `p` to `q` saves `q` next. */
  lemma {:induction false} NextSaved(s: string, p: nat, q: nat)
    requires AtWordEnd(s, p) && p < |s| && p <= q <= |s|
    requires (forall k :: p <= k < q ==> IsSpace(s[k])) && (q < |s| ==> !IsSpace(s[q]))
    ensures Starts(s, p) + [q] <= Saved(s)
  {
    if q == |s| {
      LastRound(s, p);
    } else {
      WordRound(s, p, q, q + 1);
    }
  }

  /** The C string that begins at `i`. */
  function CStringAt(line: seq<char>, i: nat): string
    requires i <= |line|
    decreases |line| - i
  {
    if i < |line| && line[i] != '\0' then [line[i]] + CStringAt(line, i + 1) else ""
  }

  /** In the cut line the C strings are the words of the original. */
  lemma {:induction false} CStringIsWord(line: seq<char>, orig: seq<char>, text: string, i: nat)
    requires Holds(orig, text) && |line| == |orig| && i <= |text|
    requires forall k :: 0 <= k < |line| ==> line[k] == Cut(orig, k, |text|)
    ensures CStringAt(line, i) == WordAt(text, i)
    decreases |text| - i
  {
    if i < |text| {
      assert orig[i] == text[i];
      if !IsSpace(text[i]) {
        CStringIsWord(line, orig, text, i + 1);
      }
    }
  }

  /** How far the line has been cut when `argc` arguments have been saved and there is no room for
      what comes next: up to the next argument, or up to the end if only the NULL is missing. */
  function CutUpTo(text: string, argc: nat): nat {
    if argc < |Saved(text)| then Saved(text)[argc] else |text|
  }

  method CutAndSave(line: array<char>, argv: array<int>, ghost text: string) returns (complete: bool, argc: nat)
    requires Holds(line[..], text)
    modifies line, argv
    ensures complete <==> |Saved(text)| < argv.Length
    ensures argc == if complete then |Saved(text)| else argv.Length
    ensures argc <= |Saved(text)| && argv[..argc] == Saved(text)[..argc] && (complete ==> argv[argc] == NULL)
    ensures forall k :: 0 <= k < line.Length ==> line[k] == Cut(old(line[..]), k, CutUpTo(text, argc))
  {
    ghost var orig := line[..];
    var p := 0;
    argc := 0;
    while line[p] != '\0'
      invariant AtWordEnd(text, p) && argc <= argv.Length
      invariant forall k :: 0 <= k < line.Length ==> line[k] == Cut(orig, k, p)
      invariant argv[..argc] == SavedBefore(text, p)
      decreases |text| - p
    {
      var q := SkipSpace(line, p, text, orig);
      if argc == argv.Length {
        NextSaved(text, p, q);
        return false, argc;
      }
      ghost var before := argv[..argc];
      argv[argc] := q;
      assert argv[..argc + 1] == before + [q];
      argc := argc + 1;
      var r := SkipWord(line, q, text, orig);
      if q == |text| {
        LastRound(text, p);
      } else {
        WordRound(text, p, q, r);
      }
      p := r;
    }
    assert p == |text|;
    if argc == argv.Length {
      return false, argc;
    }
    complete := true;
    argv[argc] := NULL;
  }

  lemma {:induction false} CStringsAreWords(line: seq<char>, orig: seq<char>, text: string)
    requires Holds(orig, text) && |line| == |orig|
    requires forall k :: 0 <= k < |line| ==> line[k] == Cut(orig, k, |text|)
    ensures forall j :: 0 <= j < |Saved(text)| ==> CStringAt(line, Saved(text)[j]) == Words(text)[j]
  {
    forall j | 0 <= j < |Saved(text)| ensures CStringAt(line, Saved(text)[j]) == Words(text)[j] {
      CStringIsWord(line, orig, text, Saved(text)[j]);
    }
  }

  lemma {:induction false} SavedNotNull(text: string, entries: seq<int>, argc: nat)
    requires argc <= |Saved(text)| && entries == Saved(text)[..argc]
    ensures forall j :: 0 <= j < argc ==> entries[j] != NULL
  {
  }

  /** Lines 75 to 87.  The program relies on its caller for room in the vector; the model stops at
      the first entry behind it.  It gets to the end exactly when there is room for all arguments
      and for the NULL behind them. */
  method Parse(line: array<char>, argv: array<int>, ghost text: string) returns (complete: bool, argc: nat)
    requires Holds(line[..], text)
    modifies line, argv
    ensures complete <==> |Saved(text)| < argv.Length
    ensures argc == if complete then |Saved(text)| else argv.Length
    ensures argc <= |Saved(text)| && argv[..argc] == Saved(text)[..argc] && (complete ==> argv[argc] == NULL)
    ensures forall j :: 0 <= j < argc ==> argv[..argc][j] != NULL
    ensures forall k :: 0 <= k < line.Length ==> line[k] == Cut(old(line[..]), k, CutUpTo(text, argc))
    ensures complete ==> forall j :: 0 <= j < argc ==> CStringAt(line[..], Saved(text)[j]) == Words(text)[j]
  {
    ghost var orig := line[..];
    complete, argc := CutAndSave(line, argv, text);
    SavedNotNull(text, argv[..argc], argc);
    if complete {
      CStringsAreWords(line[..], orig, text);
    }
  }

  // ---- The words and the rest ---------------------------------------------------------------

  /** Character `k` belongs to word `j`. */
  predicate InWord(s: string, k: nat, j: nat) {
    j < |Words(s)| && Saved(s)[j] <= k < Saved(s)[j] + |Words(s)[j]|
  }

  /** Where the word around `k` begins. */
  function WordBegin(s: string, k: nat): (i: nat)
    requires k < |s| && !IsSpace(s[k])
    ensures i <= k && IsStart(s, i) && forall m :: i <= m <= k ==> !IsSpace(s[m])
  {
    if IsStart(s, k) then k else WordBegin(s, k - 1)
  }

  lemma {:induction false} WordReaches(s: string, i: nat, k: nat)
    requires i <= k < |s| && forall m :: i <= m <= k ==> !IsSpace(s[m])
    ensures k < i + |WordAt(s, i)|
    decreases k - i
  {
    if i < k {
      WordReaches(s, i + 1, k);
    }
  }

  /** A character belongs to a word exactly when it is neither a blank nor a tab nor a line end. */
  lemma {:induction false} EveryCharacter(s: string, k: nat)
    requires k < |s|
    ensures (exists j: nat :: InWord(s, k, j)) <==> s[k] != ' ' && s[k] != '\t' && s[k] != '\n'
  {
    if exists j: nat :: InWord(s, k, j) {
      var j: nat :| InWord(s, k, j);
      WordCharacter(s, k, j);
    }
    if !IsSpace(s[k]) {
      var i := WordBegin(s, k);
      StartsExactly(s, |s|);
      assert i in Starts(s, |s|);
      var j: nat :| j < |Starts(s, |s|)| && Starts(s, |s|)[j] == i;
      assert Saved(s)[j] == i;
      WordReaches(s, i, k);
      assert InWord(s, k, j);
    }
  }

  lemma {:induction false} WordCharacter(s: string, k: nat, j: nat)
    requires InWord(s, k, j)
    ensures k < |s| && !IsSpace(s[k])
  {
    assert Words(s)[j][k - Saved(s)[j]] == s[k];
  }

  lemma {:induction false} WordIsEmpty(s: string, i: nat)
    requires i <= |s|
    ensures WordAt(s, i) == "" <==> i == |s| || IsSpace(s[i])
  {
  }

  /** An empty word stands behind a line that ends in a blank, a tab or a line end, as the last word, and
      nowhere else. */
  lemma {:induction false} EmptyWordExactly(s: string, j: nat)
    requires j < |Words(s)|
    ensures Words(s)[j] == "" <==> j == |Words(s)| - 1 && s != "" && s[|s| - 1] in {' ', '\t', '\n'}
  {
    StartsExactly(s, |s|);
    WordIsEmpty(s, Saved(s)[j]);
    if j < |Starts(s, |s|)| {
      assert Starts(s, |s|)[j] in Starts(s, |s|);
      assert IsStart(s, Saved(s)[j]);
    }
  }

  lemma {:induction false} SomeWord(s: string)
    requires s != "" && s[|s| - 1] in {' ', '\t', '\n'}
    ensures Words(s) != []
  {
  }

  // ---- How much room is enough --------------------------------------------------------------

  /** The line of a given length with the most arguments. */
  function Alternating(len: nat): (s: string)
    ensures |s| == len && forall i :: 0 <= i < len ==> s[i] == if i % 2 == 0 then 'a' else ' '
  {
    seq(len, i requires 0 <= i < len => if i % 2 == 0 then 'a' else ' ')
  }

  lemma {:induction false} AlternatingStarts(len: nat, k: nat)
    requires k <= len
    ensures |Starts(Alternating(len), k)| == (k + 1) / 2
  {
    if k > 0 {
      AlternatingStarts(len, k - 1);
      assert IsStart(Alternating(len), k - 1) <==> (k - 1) % 2 == 0;
    }
  }

  /** A vector of `n` entries has room for every line of at most `len` characters if and only if it
      has room for half as many arguments, one more, and the NULL. */
  lemma {:induction false} RoomExactly(len: nat, n: nat)
    ensures (forall s: string :: |s| <= len ==> |Saved(s)| < n) <==> (if len == 0 then 0 else len / 2 + 1) < n
  {
    if (if len == 0 then 0 else len / 2 + 1) < n {
      forall s: string | |s| <= len ensures |Saved(s)| < n {
        SavedBound(s);
        assert s == "" ==> Saved(s) == [];
      }
    } else {
      AlternatingStarts(len, len);
      assert |Saved(Alternating(len))| >= n;
    }
  }

  // ---- Joining and parsing ------------------------------------------------------------------

  function Joined(ws: seq<string>): string {
    if ws == [] then "" else if |ws| == 1 then ws[0] else ws[0] + " " + Joined(ws[1..])
  }

  predicate IsWord(w: string) {
    w != "" && forall k :: 0 <= k < |w| ==> !IsSpace(w[k])
  }

  predicate AllWords(ws: seq<string>) {
    forall j :: 0 <= j < |ws| ==> IsWord(ws[j])
  }

  function Shifted(ps: seq<nat>, d: nat): (qs: seq<nat>)
    ensures |qs| == |ps| && forall j :: 0 <= j < |ps| ==> qs[j] == ps[j] + d
  {
    seq(|ps|, j requires 0 <= j < |ps| => ps[j] + d)
  }

  lemma {:induction false} WordAtIs(s: string, i: nat, n: nat)
    requires i + n <= |s| && (forall k :: i <= k < i + n ==> !IsSpace(s[k]))
    requires i + n < |s| ==> IsSpace(s[i + n])
    ensures WordAt(s, i) == s[i..i + n]
    decreases n
  {
    if n > 0 {
      WordAtIs(s, i + 1, n - 1);
    }
  }

  /** A line that begins with a word. */
  lemma {:induction false} StartsOfWord(s: string, n: nat)
    requires 0 < n <= |s| && (forall k :: 0 <= k < n ==> !IsSpace(s[k])) && (n < |s| ==> IsSpace(s[n]))
    ensures Starts(s, n) == [0] && WordAt(s, 0) == s[..n]
  {
    assert IsStart(s, 0);
    assert Starts(s, 1) == Starts(s, 0) + [0] == [0];
    NoStarts(s, 1, n);
    WordAtIs(s, 0, n);
  }

  /** Behind a separator the words begin as they do in what follows. */
  lemma {:induction false} StartsBehind(front: string, s: string, k: nat)
    requires front != "" && IsSpace(front[|front| - 1]) && k <= |s|
    ensures Starts(front + s, |front| + k) == Starts(front + s, |front|) + Shifted(Starts(s, k), |front|)
  {
    if k > 0 {
      StartsBehind(front, s, k - 1);
      assert IsStart(front + s, |front| + k - 1) <==> IsStart(s, k - 1);
    }
  }

  lemma {:induction false} WordBehind(front: string, s: string, i: nat)
    requires i <= |s|
    ensures WordAt(front + s, |front| + i) == WordAt(s, i)
    decreases |s| - i
  {
    if i < |s| {
      WordBehind(front, s, i + 1);
    }
  }

  lemma {:induction false} JoinedShape(ws: seq<string>)
    requires ws != [] && AllWords(ws)
    ensures Joined(ws) != "" && !EndsInSpace(Joined(ws))
  {
    RestWords(ws);
    if |ws| > 1 {
      JoinedShape(ws[1..]);
    }
  }

  lemma {:induction false} StartsInFront(w: string, rest: string)
    requires IsWord(w) && rest != ""
    ensures var s := (w + " ") + rest; Starts(s, |w| + 1) == [0] && WordAt(s, 0) == w
  {
    var s := (w + " ") + rest;
    assert s[|w|] == ' ' && s[..|w|] == w;
    forall k | 0 <= k < |w| ensures !IsSpace(s[k]) {
      assert s[k] == w[k];
    }
    StartsOfWord(s, |w|);
  }

  lemma {:induction false} SavedBehind(front: string, rest: string)
    requires front != "" && IsSpace(front[|front| - 1]) && rest != "" && !EndsInSpace(rest)
    requires Starts(front + rest, |front|) == [0]
    ensures Saved(front + rest) == [0] + Shifted(Saved(rest), |front|)
  {
    StartsBehind(front, rest, |rest|);
    NoTrailingSpace(front, rest);
    assert Saved(rest) == Starts(rest, |rest|);
    assert Saved(front + rest) == Starts(front + rest, |front| + |rest|);
  }

  lemma {:induction false} NoTrailingSpace(front: string, rest: string)
    requires rest != "" && !EndsInSpace(rest)
    ensures !EndsInSpace(front + rest)
  {
  }

  lemma {:induction false} WordBehindAt(front: string, rest: string, j: nat)
    requires j < |Words(rest)| && Saved(front + rest) == [0] + Shifted(Saved(rest), |front|)
    ensures |Words(front + rest)| == |Words(rest)| + 1 && Words(front + rest)[j + 1] == Words(rest)[j]
  {
    WordBehind(front, rest, Saved(rest)[j]);
    assert Saved(front + rest)[j + 1] == |front| + Saved(rest)[j];
  }

  /** A word and a blank in front of a line add the word in front of its words. */
  lemma {:induction false} WordsBehind(w: string, front: string, rest: string)
    requires front != "" && IsSpace(front[|front| - 1]) && rest != "" && !EndsInSpace(rest)
    requires Starts(front + rest, |front|) == [0] && WordAt(front + rest, 0) == w
    ensures Words(front + rest) == [w] + Words(rest)
  {
    SavedBehind(front, rest);
    var ys, xs := Words(front + rest), Words(rest);
    forall j {:trigger xs[j]} | 0 <= j < |xs| ensures ys[j + 1] == xs[j] {
      WordBehindAt(front, rest, j);
    }
    OneInFront(ys, w, xs);
  }

  lemma {:induction false} OneInFront<X>(ys: seq<X>, x: X, xs: seq<X>)
    requires |ys| == |xs| + 1 && ys[0] == x && forall j {:trigger xs[j]} :: 0 <= j < |xs| ==> ys[j + 1] == xs[j]
    ensures ys == [x] + xs
  {
    forall i | 0 <= i < |ys| ensures ys[i] == ([x] + xs)[i] {
      if i > 0 {
        assert ys[i - 1 + 1] == xs[i - 1];
      }
    }
  }

  lemma {:induction false} ParseOfNone()
    ensures Words(Joined([])) == []
  {
    assert Saved("") == [];
  }

  lemma {:induction false} ParseOfOne(ws: seq<string>)
    requires |ws| == 1 && IsWord(ws[0])
    ensures Words(Joined(ws)) == ws
  {
    var w := ws[0];
    StartsOfWord(w, |w|);
    assert Saved(w) == [0];
    assert Words(w)[0] == WordAt(w, 0) == w;
  }

  lemma {:induction false} ParseOfMore(ws: seq<string>)
    requires |ws| > 1 && AllWords(ws)
    ensures Words(Joined(ws)) == [ws[0]] + Words(Joined(ws[1..]))
  {
    var w, rest := ws[0], Joined(ws[1..]);
    RestWords(ws);
    JoinedShape(ws[1..]);
    StartsInFront(w, rest);
    WordsBehind(w, w + " ", rest);
    assert Joined(ws) == (w + " ") + rest;
  }

  lemma {:induction false} RestWords(ws: seq<string>)
    requires ws != [] && AllWords(ws)
    ensures IsWord(ws[0]) && AllWords(ws[1..])
  {
    forall j | 0 <= j < |ws| - 1 ensures IsWord(ws[1..][j]) {
      assert ws[1..][j] == ws[j + 1];
    }
  }

  /** Parsing words joined by single blanks gives back these words. */
  lemma {:induction false} ParseOfJoined(ws: seq<string>)
    requires AllWords(ws)
    ensures Words(Joined(ws)) == ws
  {
    if ws == [] {
      ParseOfNone();
    } else if |ws| == 1 {
      ParseOfOne(ws);
    } else {
      ParseOfMore(ws);
      RestWords(ws);
      ParseOfJoined(ws[1..]);
      assert ws == [ws[0]] + ws[1..];
    }
  }
}
