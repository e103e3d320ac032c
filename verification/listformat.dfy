/** The symbol list text format: one symbol per line.  Reading keeps the
    stripped, non-empty lines; writing puts each symbol on its own line.
 */
module ListFormat {

  /** Python's `str.isspace`: the characters `str.strip()` removes. */
  predicate IsSpace(c: char) {
    || ('\U{0009}' <= c <= '\U{000D}')
    || ('\U{001C}' <= c <= '\U{0020}')
    || c == '\U{0085}' || c == '\U{00A0}' || c == '\U{1680}'
    || ('\U{2000}' <= c <= '\U{200A}')
    || c == '\U{2028}' || c == '\U{2029}' || c == '\U{202F}'
    || c == '\U{205F}' || c == '\U{3000}'
  }

  /** Line ends of a text-mode read: `\n`, and `\r` (alone or before `\n`),
      which universal-newline reading turns into `\n`. */
  predicate IsLineBreak(c: char) {
    c == '\n' || c == '\r'
  }

  /** The first index at or after `i` that holds no whitespace, or `|s|`. */
  function SkipSpace(s: string, i: nat): (j: nat)
    requires i <= |s|
    ensures i <= j <= |s|
    ensures forall k :: i <= k < j ==> IsSpace(s[k])
    ensures j < |s| ==> !IsSpace(s[j])
    decreases |s| - i
  {
    if i == |s| || !IsSpace(s[i]) then i else SkipSpace(s, i + 1)
  }

  /** The end of `s[lo..hi]` once its trailing whitespace is cut off. */
  function SkipSpaceBack(s: string, lo: nat, hi: nat): (j: nat)
    requires lo <= hi <= |s|
    ensures lo <= j <= hi
    ensures forall k :: j <= k < hi ==> IsSpace(s[k])
    ensures j > lo ==> !IsSpace(s[j - 1])
  {
    if hi == lo || !IsSpace(s[hi - 1]) then hi else SkipSpaceBack(s, lo, hi - 1)
  }

  /** `r` is the part of `s` starting at `i`, and all of `s` around it is
      whitespace. */
  ghost predicate SliceAmidSpace(s: string, r: string, i: int) {
    && 0 <= i <= |s| - |r| && r == s[i..i + |r|]
    && (forall k :: 0 <= k < i ==> IsSpace(s[k]))
    && (forall k :: i + |r| <= k < |s| ==> IsSpace(s[k]))
  }

  /** `str.strip()`: the slice of `s` left once the leading and trailing
      whitespace is cut off. */
  function Strip(s: string): (r: string)
    ensures exists i :: SliceAmidSpace(s, r, i)
    ensures |r| > 0 ==> !IsSpace(r[0]) && !IsSpace(r[|r| - 1])
  {
    var i := SkipSpace(s, 0);
    var j := SkipSpaceBack(s, i, |s|);
    assert SliceAmidSpace(s, s[i..j], i);
    s[i..j]
  }

  /** A string that is already stripped is left alone. */
  lemma StripStripped(s: string)
    requires |s| > 0 && !IsSpace(s[0]) && !IsSpace(s[|s| - 1])
    ensures Strip(s) == s
  {
  }

  /** Index of the first line break of `t`, or `|t|` if it has none. */
  function FirstBreak(t: string): (i: nat)
    ensures i <= |t|
    ensures i < |t| ==> IsLineBreak(t[i])
    ensures forall k :: 0 <= k < i ==> !IsLineBreak(t[k])
  {
    if |t| == 0 || IsLineBreak(t[0]) then 0 else 1 + FirstBreak(t[1..])
  }

  predicate NoBreak(s: string) {
    forall k :: 0 <= k < |s| ==> !IsLineBreak(s[k])
  }

  /** The lines of `t`, without their line ends.  A `\r\n` pair yields an
      extra empty line, which reading drops anyway. */
  function Lines(t: string): (ls: seq<string>)
    ensures forall l :: l in ls ==> NoBreak(l)
    decreases |t|
  {
    if |t| == 0 then []
    else
      var i := FirstBreak(t);
      if i == |t| then [t] else [t[..i]] + Lines(t[i + 1..])
  }

  /** Stripping a one-line string leaves it on one line. */
  lemma StripNoBreak(l: string)
    requires NoBreak(l)
    ensures NoBreak(Strip(l))
  {
    var x := Strip(l);
    var i :| SliceAmidSpace(l, x, i);
    assert forall k :: 0 <= k < |x| ==> x[k] == l[i + k];
  }

  /** A symbol the format can carry unchanged: non-empty, stripped, and on
      one line. */
  predicate Writable(s: string) {
    |s| > 0 && !IsSpace(s[0]) && !IsSpace(s[|s| - 1]) && NoBreak(s)
  }

  /** Keeps each line's stripped text when it is not empty. */
  function KeepStripped(ls: seq<string>): (r: seq<string>)
    requires forall l :: l in ls ==> NoBreak(l)
    ensures |r| <= |ls|
    ensures forall x :: x in r ==> Writable(x)
  {
    if |ls| == 0 then []
    else
      var x := Strip(ls[0]);
      assert ls[0] in ls;
      assert forall l :: l in ls[1..] ==> l in ls;
      StripNoBreak(ls[0]);
      if |x| > 0 then [x] + KeepStripped(ls[1..])
      else KeepStripped(ls[1..])
  }

  /** The symbols of an input list text: the stripped lines that are not
      empty, in order.  Each of them can be written back unchanged. */
  function Parse(t: string): (syms: seq<string>)
    ensures forall x :: x in syms ==> Writable(x) && Strip(x) == x
  {
    var syms := KeepStripped(Lines(t));
    forall x | x in syms ensures Strip(x) == x {
      StripStripped(x);
    }
    syms
  }

  /** What one line adds to the symbol list: its stripped text, or nothing
      when that is empty. */
  function Kept(l: string): seq<string> {
    if Strip(l) == "" then [] else [Strip(l)]
  }

  lemma KeepStrippedHead(l: string, ls: seq<string>)
    requires NoBreak(l)
    requires forall x :: x in ls ==> NoBreak(x)
    ensures KeepStripped([l] + ls) == Kept(l) + KeepStripped(ls)
  {
    assert ([l] + ls)[0] == l;
    assert ([l] + ls)[1..] == ls;
  }

  /** Reading goes line by line, in order: the line before the first line
      end adds its stripped text, if any, ahead of what the rest of the text
      reads as.  Repeated and blank lines are treated alike wherever they
      stand. */
  lemma ParseLine(a: string, c: char, rest: string)
    requires NoBreak(a) && IsLineBreak(c)
    ensures Parse(a + [c] + rest) == Kept(a) + Parse(rest)
  {
    var t := a + [c] + rest;
    assert forall k :: 0 <= k < |a| ==> t[k] == a[k];
    assert t[|a|] == c;
    assert FirstBreak(t) == |a|;
    assert t[..|a|] == a;
    assert t[|a| + 1..] == rest;
    assert Lines(t) == [a] + Lines(rest);
    KeepStrippedHead(a, Lines(rest));
  }

  /** A last line without a line end is read like any other; empty text
      reads as no symbols. */
  lemma ParseLastLine(a: string)
    requires NoBreak(a)
    ensures Parse(a) == Kept(a)
  {
    if |a| > 0 {
      assert FirstBreak(a) == |a|;
      assert Lines(a) == [a];
      KeepStrippedHead(a, []);
    } else {
      var i :| SliceAmidSpace(a, Strip(a), i);
    }
  }

  lemma KeptWritable(s: string)
    requires Writable(s)
    ensures Kept(s) == [s]
  {
    StripStripped(s);
  }

  lemma KeptEmpty()
    ensures Kept("") == []
  {
    var i :| SliceAmidSpace("", Strip(""), i);
  }

  lemma ReadAfterEmptyLine()
    ensures Parse("\nA") == ["A"]
  {
    KeptEmpty();
    KeptWritable("A");
    ParseLastLine("A");
    ParseLine("", '\n', "A");
    assert "" + ['\n'] + "A" == "\nA";
  }

  /** A symbol listed twice is read twice, and the empty line a `\r\n`
      pair leaves behind adds nothing. */
  lemma RepeatedSymbolRead()
    ensures Parse("A\r\nA") == ["A", "A"]
  {
    ReadAfterEmptyLine();
    KeptWritable("A");
    ParseLine("A", '\r', "\nA");
    assert "A" + ['\r'] + "\nA" == "A\r\nA";
  }

  /** Every line whose stripped text is not empty contributes that text. */
  lemma {:induction false} KeepStrippedComplete(ls: seq<string>)
    requires forall l :: l in ls ==> NoBreak(l)
    ensures forall l :: l in ls && Strip(l) != "" ==> Strip(l) in KeepStripped(ls)
  {
    if |ls| > 0 {
      var tail := ls[1..];
      assert forall l :: l in tail ==> l in ls;
      KeepStrippedComplete(tail);
      var head := if Strip(ls[0]) != "" then [Strip(ls[0])] else [];
      assert KeepStripped(ls) == head + KeepStripped(tail);
      forall l | l in ls && Strip(l) != "" ensures Strip(l) in KeepStripped(ls) {
        if l != ls[0] {
          assert l in tail;
        }
      }
    }
  }

  /** Every kept symbol is the stripped text of some line. */
  lemma {:induction false} KeepStrippedSound(ls: seq<string>)
    requires forall l :: l in ls ==> NoBreak(l)
    ensures forall x :: x in KeepStripped(ls) ==> exists l :: l in ls && Strip(l) == x
  {
    if |ls| > 0 {
      var tail := ls[1..];
      assert forall l :: l in tail ==> l in ls;
      KeepStrippedSound(tail);
      var head := if Strip(ls[0]) != "" then [Strip(ls[0])] else [];
      assert KeepStripped(ls) == head + KeepStripped(tail);
      forall x | x in KeepStripped(ls) ensures exists l :: l in ls && Strip(l) == x {
        if x in KeepStripped(tail) {
          var l :| l in tail && Strip(l) == x;
          assert l in ls;
        } else {
          assert x == Strip(ls[0]) && ls[0] in ls;
        }
      }
    }
  }

  /** Reading keeps exactly the stripped lines that are not empty. */
  lemma ParseKeepsLines(t: string)
    ensures forall l :: l in Lines(t) && Strip(l) != "" ==> Strip(l) in Parse(t)
    ensures forall x :: x in Parse(t) ==> exists l :: l in Lines(t) && Strip(l) == x
  {
    KeepStrippedComplete(Lines(t));
    KeepStrippedSound(Lines(t));
  }

  /** The output list text: each symbol followed by a newline. */
  function Render(syms: seq<string>): (t: string)
    ensures |syms| > 0 ==> |t| > 0 && t[|t| - 1] == '\n'
    ensures |t| >= |syms|
  {
    if |syms| == 0 then "" else syms[0] + "\n" + Render(syms[1..])
  }

  /** Text without carriage returns, where every line ends in `\n`. */
  predicate NoReturn(t: string) {
    forall k :: 0 <= k < |t| ==> t[k] != '\r'
  }

  lemma RenderCons(a: string, rest: seq<string>)
    ensures Render([a] + rest) == a + "\n" + Render(rest)
  {
    assert ([a] + rest)[1..] == rest;
  }

  /** The text with a final newline, added only when it does not end in one
      already. */
  function Terminated(t: string): string {
    if |t| == 0 || t[|t| - 1] == '\n' then t else t + "\n"
  }

  lemma TerminatedAfterBreak(head: string, rest: string)
    ensures Terminated(head + "\n" + rest) == head + "\n" + Terminated(rest)
  {
    var t := head + "\n" + rest;
    if |rest| > 0 {
      assert t[|t| - 1] == rest[|rest| - 1];
      assert t + "\n" == head + "\n" + (rest + "\n");
    }
  }

  /** Splitting text without carriage returns into lines and writing each
      line back with a newline restores the text, with a final newline added
      when it had none. */
  lemma {:induction false} RenderLines(t: string)
    requires NoReturn(t)
    ensures Render(Lines(t)) == Terminated(t)
    decreases |t|
  {
    if |t| > 0 {
      var i := FirstBreak(t);
      if i == |t| {
        assert Lines(t) == [t];
        RenderCons(t, []);
        assert !IsLineBreak(t[|t| - 1]);
      } else {
        var head, rest := t[..i], t[i + 1..];
        SplitAtBreak(t, i);
        RenderLines(rest);
        assert Lines(t) == [head] + Lines(rest);
        RenderCons(head, Lines(rest));
        TerminatedAfterBreak(head, rest);
      }
    }
  }

  /** Text cut at a newline: the part before, the newline, the part after. */
  lemma SplitAtBreak(t: string, i: int)
    requires 0 <= i < |t| && t[i] == '\n'
    requires NoReturn(t)
    ensures t == t[..i] + "\n" + t[i + 1..]
    ensures NoReturn(t[i + 1..])
  {
    assert t[i..] == "\n" + t[i + 1..] by {
      assert t[i..][1..] == t[i + 1..];
    }
    assert t == t[..i] + t[i..];
    var rest := t[i + 1..];
    assert forall k :: 0 <= k < |rest| ==> rest[k] == t[i + 1 + k];
  }

  lemma LinesAfterBreak(a: string, rest: string)
    requires NoBreak(a)
    ensures Lines(a + "\n" + rest) == [a] + Lines(rest)
  {
    var t := a + "\n" + rest;
    assert t[|a|] == '\n';
    assert forall k :: 0 <= k < |a| ==> t[k] == a[k];
    assert FirstBreak(t) == |a|;
    assert t[..|a|] == a;
    assert t[|a| + 1..] == rest;
  }

  /** A writable line is kept as it is, ahead of whatever follows. */
  lemma KeepStrippedCons(s: string, ls: seq<string>)
    requires Writable(s)
    requires forall l :: l in ls ==> NoBreak(l)
    ensures KeepStripped([s] + ls) == [s] + KeepStripped(ls)
  {
    StripStripped(s);
    assert ([s] + ls)[1..] == ls;
  }

  /** Reading a writable symbol on its own line, then more text. */
  lemma ParseAfterLine(s: string, rest: string)
    requires Writable(s)
    ensures Parse(s + "\n" + rest) == [s] + Parse(rest)
  {
    LinesAfterBreak(s, rest);
    KeepStrippedCons(s, Lines(rest));
  }

  /** Writing a list of writable symbols and reading it back gives the same
      list. */
  lemma {:induction false} ParseRender(syms: seq<string>)
    requires forall s :: s in syms ==> Writable(s)
    ensures Parse(Render(syms)) == syms
  {
    if |syms| > 0 {
      assert syms[0] in syms;
      assert forall x :: x in syms[1..] ==> x in syms;
      ParseAfterLine(syms[0], Render(syms[1..]));
      ParseRender(syms[1..]);
    }
  }
}
