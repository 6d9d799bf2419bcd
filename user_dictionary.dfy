/**
 * The spell checker's user dictionary: the lines of a text file, the words
 * among them (every line that is not a '#' comment), a flag saying whether
 * the file was in sort order when it was read, and the writes made when a
 * word is added.
 */
module UserDictionary {
  import opened Wrappers
  import opened JavaText

  /** A line starting with '#' is a comment, not a word. */
  predicate IsComment(line: string) {
    StartsWith(line, "#")
  }

  predicate NoComments(lines: seq<string>) {
    forall k :: 0 <= k < |lines| ==> !IsComment(lines[k])
  }

  /** The words of `lines`: the lines that are not comments, in file order. */
  function NonComments(lines: seq<string>): seq<string> {
    if lines == [] then []
    else
      var last := lines[|lines| - 1];
      NonComments(lines[..|lines| - 1]) + (if IsComment(last) then [] else [last])
  }

  /** A word is among the words exactly when it is a line and not a comment. */
  lemma {:induction false} NonCommentsMembers(lines: seq<string>, x: string)
    ensures x in NonComments(lines) <==> x in lines && !IsComment(x)
  {
    if lines != [] {
      var init := lines[..|lines| - 1];
      NonCommentsMembers(init, x);
      assert lines == init + [lines[|lines| - 1]];
    }
  }

  /** Filtering keeps every line iff there is no comment line. */
  lemma {:induction false} NonCommentsIdentity(lines: seq<string>)
    ensures NonComments(lines) == lines <==> NoComments(lines)
  {
    if NonComments(lines) == lines {
      forall k | 0 <= k < |lines|
        ensures !IsComment(lines[k])
      {
        NonCommentsMembers(lines, lines[k]);
      }
    }
    if NoComments(lines) && lines != [] {
      var init := lines[..|lines| - 1];
      assert NoComments(init) by {
        assert forall k :: 0 <= k < |init| ==> init[k] == lines[k];
      }
      NonCommentsIdentity(init);
      assert lines == init + [lines[|lines| - 1]];
    }
  }

  /** String.compareTo(a, b) < 0: the first differing char decides, else the shorter string comes first. */
  function LexLess(a: string, b: string): bool
    decreases |a|
  {
    if a == [] then b != []
    else if b == [] then false
    else if a[0] != b[0] then a[0] < b[0]
    else LexLess(a[1..], b[1..])
  }

  lemma {:induction false} LexLessIrreflexive(a: string)
    ensures !LexLess(a, a)
    decreases |a|
  {
    if a != [] {
      LexLessIrreflexive(a[1..]);
    }
  }

  lemma {:induction false} LexLessTransitive(a: string, b: string, c: string)
    requires LexLess(a, b) && LexLess(b, c)
    ensures LexLess(a, c)
    decreases |a|
  {
    if a != [] && a[0] == b[0] && b[0] == c[0] {
      LexLessTransitive(a[1..], b[1..], c[1..]);
    }
  }

  lemma {:induction false} LexLessTotal(a: string, b: string)
    requires a != b
    ensures LexLess(a, b) || LexLess(b, a)
    decreases |a|
  {
    if a != [] && b != [] && a[0] == b[0] {
      assert a == [a[0]] + a[1..] && b == [b[0]] + b[1..];
      LexLessTotal(a[1..], b[1..]);
    }
  }

  /**
   * The dictionary's comparator is negative: compareToIgnoreCase orders the
   * lower-cased strings, and compareTo breaks a tie between strings that
   * differ only in case.
   */
  predicate Before(a: string, b: string) {
    LexLess(ToLower(a), ToLower(b)) || (ToLower(a) == ToLower(b) && LexLess(a, b))
  }

  /** The comparator is not positive; it is zero only for equal strings. */
  predicate Leq(a: string, b: string) {
    a == b || Before(a, b)
  }

  lemma BeforeIrreflexive(a: string)
    ensures !Before(a, a)
  {
    LexLessIrreflexive(ToLower(a));
    LexLessIrreflexive(a);
  }

  lemma BeforeTransitive(a: string, b: string, c: string)
    requires Before(a, b) && Before(b, c)
    ensures Before(a, c)
  {
    var la, lb, lc := ToLower(a), ToLower(b), ToLower(c);
    if LexLess(la, lb) && LexLess(lb, lc) {
      LexLessTransitive(la, lb, lc);
    } else if la == lb && lb == lc {
      LexLessTransitive(a, b, c);
    }
  }

  lemma BeforeTotal(a: string, b: string)
    requires a != b
    ensures Before(a, b) || Before(b, a)
  {
    if ToLower(a) != ToLower(b) {
      LexLessTotal(ToLower(a), ToLower(b));
    } else {
      LexLessTotal(a, b);
    }
  }

  /** The comparator is a total order: Leq is transitive, total and antisymmetric. */
  lemma LeqTransitive(a: string, b: string, c: string)
    requires Leq(a, b) && Leq(b, c)
    ensures Leq(a, c)
  {
    if a != b && b != c {
      BeforeTransitive(a, b, c);
    }
  }

  lemma LeqTotal(a: string, b: string)
    ensures Leq(a, b) || Leq(b, a)
  {
    if a != b {
      BeforeTotal(a, b);
    }
  }

  lemma LeqAntisymmetric(a: string, b: string)
    requires Leq(a, b) && Leq(b, a)
    ensures a == b
  {
    if a != b {
      BeforeTransitive(a, b, a);
      BeforeIrreflexive(a);
    }
  }

  predicate Sorted(s: seq<string>) {
    forall i, j :: 0 <= i < j < |s| ==> Leq(s[i], s[j])
  }

  function Insert(x: string, s: seq<string>): seq<string> {
    if s == [] || Leq(x, s[0]) then [x] + s else [s[0]] + Insert(x, s[1..])
  }

  /**
   * sort(list): a sorted copy of the list. List.sort is a stable merge
   * sort; as the comparator is zero only for equal strings, every sorting
   * algorithm gives the same list (SortedUnique), so an insertion sort
   * stands for it.
   */
  function Sort(s: seq<string>): seq<string> {
    if s == [] then [] else Insert(s[0], Sort(s[1..]))
  }

  lemma {:induction false} InsertPermutes(x: string, s: seq<string>)
    ensures multiset(Insert(x, s)) == multiset(s) + multiset{x}
  {
    if s != [] && !Leq(x, s[0]) {
      InsertPermutes(x, s[1..]);
      assert s == [s[0]] + s[1..];
    }
  }

  lemma {:induction false} InsertSorted(x: string, s: seq<string>)
    requires Sorted(s)
    ensures Sorted(Insert(x, s))
  {
    var r := Insert(x, s);
    if s == [] {
    } else if Leq(x, s[0]) {
      forall i, j | 0 <= i < j < |r|
        ensures Leq(r[i], r[j])
      {
        if i == 0 && j > 1 {
          LeqTransitive(x, s[0], s[j - 1]);
        }
      }
    } else {
      var t := s[1..];
      var rest := Insert(x, t);
      assert Sorted(t);
      InsertSorted(x, t);
      InsertPermutes(x, t);
      LeqTotal(x, s[0]);
      forall j | 0 <= j < |rest|
        ensures Leq(s[0], rest[j])
      {
        assert rest[j] in multiset(rest);
        assert rest[j] in multiset(t) || rest[j] == x;
        if rest[j] != x {
          var k :| 0 <= k < |t| && t[k] == rest[j];
          assert s[k + 1] == rest[j];
        }
      }
      assert r == [s[0]] + rest;
    }
  }

  /** sort(list) is a permutation of `list` in comparator order. */
  lemma {:induction false} SortCorrect(s: seq<string>)
    ensures Sorted(Sort(s)) && multiset(Sort(s)) == multiset(s)
  {
    if s != [] {
      SortCorrect(s[1..]);
      InsertSorted(s[0], Sort(s[1..]));
      InsertPermutes(s[0], Sort(s[1..]));
      assert s == [s[0]] + s[1..];
    }
  }

  /** The first element of a sorted list is its least element. */
  lemma SortedHead(a: seq<string>, b: seq<string>)
    requires a != [] && Sorted(a) && Sorted(b) && multiset(a) == multiset(b)
    ensures b != [] && a[0] == b[0]
  {
    assert a[0] in multiset(b) && |b| == |multiset(b)|;
    var i :| 0 <= i < |b| && b[i] == a[0];
    assert b[0] in multiset(a);
    var j :| 0 <= j < |a| && a[j] == b[0];
    assert Leq(b[0], b[i]) by {
      if i == 0 {
        assert b[0] == b[i];
      }
    }
    assert Leq(a[0], a[j]) by {
      if j == 0 {
        assert a[0] == a[j];
      }
    }
    LeqAntisymmetric(a[0], b[0]);
  }

  lemma SortedTail(a: seq<string>)
    requires a != [] && Sorted(a)
    ensures Sorted(a[1..]) && multiset(a[1..]) == multiset(a) - multiset{a[0]}
    ensures a == [a[0]] + a[1..]
  {
    assert a == [a[0]] + a[1..];
    assert multiset(a) == multiset{a[0]} + multiset(a[1..]);
  }

  /** Two sorted lists with the same elements are the same list. */
  lemma {:induction false} SortedUnique(a: seq<string>, b: seq<string>)
    requires Sorted(a) && Sorted(b) && multiset(a) == multiset(b)
    ensures a == b
    decreases |a|
  {
    if a == [] {
      assert |b| == |multiset(b)| == 0;
    } else {
      SortedHead(a, b);
      SortedTail(a);
      SortedTail(b);
      SortedUnique(a[1..], b[1..]);
    }
  }

  /** A list equals its sorted copy exactly when it is in comparator order. */
  lemma SortFixed(s: seq<string>)
    ensures Sort(s) == s <==> Sorted(s)
  {
    SortCorrect(s);
    if Sorted(s) {
      SortedUnique(Sort(s), s);
    }
  }

  /**
   * The isSorted flag computed by load: the lines equal the words and their
   * own sorted copy exactly when there are no comment lines and the lines
   * are in comparator order.
   */
  lemma SortedFlag(lines: seq<string>)
    ensures (lines == NonComments(lines) && lines == Sort(lines)) <==> (NoComments(lines) && Sorted(lines))
  {
    NonCommentsIdentity(lines);
    SortFixed(lines);
  }

  /** What save writes: the sorted lines when the file was sorted, else the lines as they are. */
  function Saved(lines: seq<string>, isSorted: bool): seq<string> {
    if isSorted then Sort(lines) else lines
  }

  /** save never loses or invents a line, and keeps a sorted file sorted. */
  lemma SavedContent(lines: seq<string>, isSorted: bool)
    ensures multiset(Saved(lines, isSorted)) == multiset(lines)
    ensures isSorted ==> Sorted(Saved(lines, isSorted))
  {
    SortCorrect(lines);
  }

  /** The words-building loop of load. */
  method CollectWords(lines: seq<string>) returns (words: seq<string>)
    ensures words == NonComments(lines)
  {
    words := [];
    var i := 0;
    while i < |lines|
      invariant 0 <= i <= |lines|
      invariant words == NonComments(lines[..i])
    {
      assert lines[..i + 1][..i] == lines[..i];
      if !StartsWith(lines[i], "#") {
        words := words + [lines[i]];
      }
      i := i + 1;
    }
    assert lines[..i] == lines;
  }

  class UserDictionary {
    var lines: seq<string>
    var words: seq<string>
    var isSorted: bool
    /** Every list handed to Files.write, oldest first. */
    var written: seq<seq<string>>

    /** A sorted file has no comment lines, so its lines are its words. */
    predicate Valid()
      reads this
    {
      (isSorted ==> lines == words) && (forall k :: 0 <= k < |words| ==> words[k] in lines)
    }

    /**
     * Both constructors once the file is chosen, followed by load.
     * `contents` is the file's lines, or None when it is not a regular
     * file or reading it failed.
     */
    constructor (contents: Option<seq<string>>)
      ensures lines == (if contents.Some? then contents.value else [])
      ensures words == NonComments(lines)
      ensures isSorted <==> NoComments(lines) && Sorted(lines)
      ensures written == []
      ensures Valid()
    {
      var read := if contents.Some? then contents.value else [];
      var collected := CollectWords(read);
      SortedFlag(read);
      forall k | 0 <= k < |collected|
        ensures collected[k] in read
      {
        NonCommentsMembers(read, collected[k]);
      }
      lines := read;
      words := collected;
      isSorted := read == collected && read == Sort(read);
      written := [];
    }

    method Save()
      modifies this`written
      ensures written == old(written) + [Saved(lines, isSorted)]
    {
      var content := if isSorted then Sort(lines) else lines;
      written := written + [content];
    }

    /**
     * addWord: a word already among the words changes nothing and writes
     * nothing; any other word is appended to the lines and the words and
     * the file is written. The flag is not recomputed.
     */
    method AddWord(word: string)
      requires Valid()
      modifies this
      ensures Valid()
      ensures isSorted == old(isSorted)
      ensures word in old(words) ==> lines == old(lines) && words == old(words) && written == old(written)
      ensures word !in old(words) ==>
        lines == old(lines) + [word] && words == old(words) + [word] &&
        written == old(written) + [Saved(lines, isSorted)]
      ensures NoDuplicates(old(words)) ==> NoDuplicates(words)
    {
      if word in words {
        return;
      }
      lines := lines + [word];
      words := words + [word];
      Save();
    }
  }
}
