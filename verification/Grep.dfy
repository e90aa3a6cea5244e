/** The regular-expression matcher of user/grep.c: `match`, `matchhere` and `matchstar`,
    proved to decide membership in the language a pattern denotes. */
module Grep {

  /** A C string: the terminating NUL is the end of the sequence. */
  type CString = s: string | '\0' !in s witness ""

  // ---------------------------------------------------------------- the denoted language

  datatype Atom = Any | Lit(c: char) {
    predicate Accepts(ch: char) {
      Any? || c == ch
    }
  }

  datatype Item = One(a: Atom) | Star(a: Atom) | End

  function AtomOf(c: char): Atom {
    if c == '.' then Any else Lit(c)
  }

  /** The concrete syntax: `c*` binds first, a final `$` is an anchor, anything else is itself. */
  function Parse(re: CString): seq<Item>
    decreases |re|
  {
    if re == "" then []
    else if |re| >= 2 && re[1] == '*' then [Star(AtomOf(re[0]))] + Parse(re[2..])
    else if re == "$" then [End]
    else [One(AtomOf(re[0]))] + Parse(re[1..])
  }

  ghost predicate InItem(item: Item, w: string) {
    match item
    case One(a) => |w| == 1 && a.Accepts(w[0])
    case Star(a) => forall i | 0 <= i < |w| :: a.Accepts(w[i])
    case End => w == ""
  }

  /** Concatenation: `w` splits into one word per item. */
  ghost predicate InLang(items: seq<Item>, w: string) {
    if items == [] then w == ""
    else exists k | 0 <= k <= |w| :: InItem(items[0], w[..k]) && InLang(items[1..], w[k..])
  }

  predicate EndAnchored(items: seq<Item>) {
    items != [] && items[|items| - 1] == End
  }

  ghost predicate MatchAt(items: seq<Item>, text: string, j: nat) {
    j <= |text| && InLang(items, text[..j]) && (EndAnchored(items) ==> j == |text|)
  }

  /** Some prefix of `text` is in the language, all of it when the pattern ends in `$`. */
  ghost predicate MatchesPrefix(items: seq<Item>, text: string) {
    exists j: nat :: MatchAt(items, text, j)
  }

  /** What `match` promises: some substring is in the language, anchored as `^` and `$` demand. */
  ghost predicate Matches(re: CString, text: CString) {
    if re != "" && re[0] == '^' then MatchesPrefix(Parse(re[1..]), text)
    else exists i | 0 <= i <= |text| :: MatchesPrefix(Parse(re), text[i..])
  }

  // ---------------------------------------------------------------- how the language unfolds

  lemma EndUnfolds(text: string)
    ensures MatchesPrefix([End], text) <==> text == ""
  {
    if text == "" {
      assert InItem(End, text[..0]) && InLang([End][1..], text[0..]);
      assert MatchAt([End], text, 0);
    }
    forall j: nat | MatchAt([End], text, j)
      ensures text == ""
    {
      var w := text[..j];
      var k :| 0 <= k <= |w| && InItem([End][0], w[..k]) && InLang([End][1..], w[k..]);
    }
  }

  lemma ConsUnfolds(item: Item, items: seq<Item>, text: string)
    requires !item.End?
    ensures MatchesPrefix([item] + items, text) <==>
            exists k | 0 <= k <= |text| :: InItem(item, text[..k]) && MatchesPrefix(items, text[k..])
  {
    var all := [item] + items;
    assert all[1..] == items;
    assert EndAnchored(all) <==> EndAnchored(items);
    forall j: nat | MatchAt(all, text, j)
      ensures exists k | 0 <= k <= |text| :: InItem(item, text[..k]) && MatchesPrefix(items, text[k..])
    {
      var w := text[..j];
      var k :| 0 <= k <= |w| && InItem(all[0], w[..k]) && InLang(all[1..], w[k..]);
      assert w[..k] == text[..k] && w[k..] == text[k..][..j - k];
      assert MatchAt(items, text[k..], j - k);
    }
    forall k | 0 <= k <= |text| && InItem(item, text[..k]) && MatchesPrefix(items, text[k..])
      ensures MatchesPrefix(all, text)
    {
      var j: nat :| MatchAt(items, text[k..], j);
      var w := text[..k + j];
      assert w[..k] == text[..k] && w[k..] == text[k..][..j];
      assert InLang(all, w);
      assert MatchAt(all, text, k + j);
    }
  }

  lemma OneUnfolds(a: Atom, items: seq<Item>, text: string)
    ensures MatchesPrefix([One(a)] + items, text) <==>
            text != "" && a.Accepts(text[0]) && MatchesPrefix(items, text[1..])
  {
    ConsUnfolds(One(a), items, text);
    if text != "" && a.Accepts(text[0]) {
      assert InItem(One(a), text[..1]);
    }
  }

  lemma StarWord(a: Atom, text: string, k: nat, n: nat)
    requires k < n <= |text| && !a.Accepts(text[k])
    ensures !InItem(Star(a), text[..n])
  {
    assert text[..n][k] == text[k];
  }

  // ---------------------------------------------------------------- what patterns mean

  function ShowAtom(a: Atom): string {
    if a.Any? then "." else [a.c]
  }

  function Show(items: seq<Item>): string {
    if items == [] then ""
    else
      (match items[0]
       case One(a) => ShowAtom(a)
       case Star(a) => ShowAtom(a) + "*"
       case End => "$") + Show(items[1..])
  }

  /** Parsing loses nothing: written out again, the items are the pattern. */
  lemma {:induction false} ParseShow(re: CString)
    ensures Show(Parse(re)) == re
    decreases |re|
  {
    if re != "" {
      var n := if |re| >= 2 && re[1] == '*' then 2 else 1;
      ParseShow(re[n..]);
      assert re == re[..n] + re[n..] && Parse(re)[1..] == if re == "$" then [] else Parse(re[n..]);
    }
  }

  /** The characters of the text that stand for themselves in a pattern. */
  predicate Plain(w: string) {
    forall i | 0 <= i < |w| :: w[i] != '.' && w[i] != '*' && w[i] != '$' && w[i] != '^' && w[i] != '\0'
  }

  /** A plain word in a pattern asks for that word. */
  lemma {:induction false} WordThen(w: string, tail: CString, text: string)
    requires Plain(w) && (tail != "" ==> tail[0] != '*')
    ensures MatchesPrefix(Parse(w + tail), text) <==> w <= text && MatchesPrefix(Parse(tail), text[|w|..])
    decreases |w|
  {
    if w == "" {
      assert w + tail == tail && text[0..] == text;
    } else {
      var re: CString := w + tail;
      assert re[0] == w[0] && re[1..] == w[1..] + tail;
      assert Plain(w[1..]) && (|re| >= 2 ==> re[1] != '*');
      OneUnfolds(Lit(w[0]), Parse(re[1..]), text);
      if text != "" {
        WordThen(w[1..], tail, text[1..]);
        assert w <= text <==> w[0] == text[0] && w[1..] <= text[1..] by {
          assert w == [w[0]] + w[1..] && text == [text[0]] + text[1..];
        }
      }
    }
  }

  /** `c*`, or `.*`, asks for a run of that character, or of any. */
  lemma RunThen(c: char, tail: CString, text: string)
    requires c != '\0'
    ensures MatchesPrefix(Parse([c, '*'] + tail), text) <==>
            exists k | 0 <= k <= |text| ::
              (forall i | 0 <= i < k :: c == '.' || text[i] == c) && MatchesPrefix(Parse(tail), text[k..])
  {
    var re: CString := [c, '*'] + tail;
    assert re[2..] == tail;
    ConsUnfolds(Star(AtomOf(c)), Parse(tail), text);
    forall k | 0 <= k <= |text|
      ensures InItem(Star(AtomOf(c)), text[..k]) <==> forall i | 0 <= i < k :: c == '.' || text[i] == c
    {
      assert forall i | 0 <= i < k :: text[..k][i] == text[i];
    }
  }

  lemma NothingThen(text: string)
    ensures MatchesPrefix(Parse(""), text) && (MatchesPrefix(Parse("$"), text) <==> text == "")
  {
    assert MatchAt([], text, 0);
    EndUnfolds(text);
  }

  /** A plain word is found exactly where it occurs: anywhere, after `^` at the start, before `$` at
      the end, and between both as the whole text. */
  lemma WordIsFound(w: CString, text: CString)
    requires Plain(w)
    ensures Matches(w, text) <==> exists i | 0 <= i <= |text| :: w <= text[i..]
    ensures Matches("^" + w, text) <==> w <= text
    ensures Matches(w + "$", text) <==> exists i | 0 <= i <= |text| :: text[i..] == w
    ensures Matches("^" + w + "$", text) <==> text == w
  {
    forall t: string
      ensures MatchesPrefix(Parse(w), t) <==> w <= t
      ensures MatchesPrefix(Parse(w + "$"), t) <==> t == w
    {
      assert w + "" == w;
      WordThen(w, "", t);
      WordThen(w, "$", t);
      if w <= t {
        NothingThen(t[|w|..]);
        assert t == w + t[|w|..];
      }
    }
    assert ("^" + w)[1..] == w && ("^" + w + "$")[1..] == w + "$";
  }

  // ---------------------------------------------------------------- the matcher

  method Match(re: CString, text: CString) returns (found: bool)
    ensures found <==> Matches(re, text)
  {
    if re != "" && re[0] == '^' {
      found := MatchHere(re[1..], text);
      return;
    }
    var i := 0;
    while true
      invariant 0 <= i <= |text|
      invariant forall j | 0 <= j < i :: !MatchesPrefix(Parse(re), text[j..])
      decreases |text| - i
    {
      found := MatchHere(re, text[i..]);
      if found || i == |text| { return; }
      i := i + 1;
    }
  }

  method MatchHere(re: CString, text: CString) returns (found: bool)
    ensures found <==> MatchesPrefix(Parse(re), text)
    decreases |re|, 0
  {
    if re == "" {
      assert MatchAt([], text, 0);
      return true;
    }
    if |re| >= 2 && re[1] == '*' {
      found := MatchStar(re[0], re[2..], text);
      ConsUnfolds(Star(AtomOf(re[0])), Parse(re[2..]), text);
      return;
    }
    if re == "$" {
      EndUnfolds(text);
      return text == "";
    }
    OneUnfolds(AtomOf(re[0]), Parse(re[1..]), text);
    if text != "" && (re[0] == '.' || re[0] == text[0]) {
      found := MatchHere(re[1..], text[1..]);
      return;
    }
    return false;
  }

  method MatchStar(c: char, re: CString, text: CString) returns (found: bool)
    ensures found <==>
            exists k | 0 <= k <= |text| :: InItem(Star(AtomOf(c)), text[..k]) && MatchesPrefix(Parse(re), text[k..])
    decreases |re|, 1
  {
    var k := 0;
    while true
      invariant 0 <= k <= |text|
      invariant InItem(Star(AtomOf(c)), text[..k])
      invariant forall j | 0 <= j < k :: !MatchesPrefix(Parse(re), text[j..])
      decreases |text| - k
    {
      found := MatchHere(re, text[k..]);
      if found { return; }
      if !(k < |text| && (text[k] == c || c == '.')) {
        forall n | k < n <= |text|
          ensures !InItem(Star(AtomOf(c)), text[..n])
        {
          StarWord(AtomOf(c), text, k, n);
        }
        return;
      }
      k := k + 1;
    }
  }
}
