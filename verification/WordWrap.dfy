/** BreakLongLanguageString of UI.c: a text is broken into lines in place, at its spaces. */
module WordWrap {

  /** Width of a stretch of text in pixels. */
  function Width(text: string, width: char -> nat): nat {
    if |text| == 0 then 0 else Width(text[..|text| - 1], width) + width(text[|text| - 1])
  }

  /** The text ends at the first NUL. */
  function TextLength(buffer: string): (n: nat)
    ensures n <= |buffer|
    ensures forall i :: 0 <= i < n ==> buffer[i] != '\0'
    ensures n < |buffer| ==> buffer[n] == '\0'
  {
    if |buffer| == 0 || buffer[0] == '\0' then 0 else 1 + TextLength(buffer[1..])
  }

  /** `text[i..j]` is one line. */
  predicate Line(text: string, i: nat, j: nat) {
    && i <= j <= |text|
    && (i == 0 || text[i - 1] == '\n') && (j == |text| || text[j] == '\n')
    && forall k :: i <= k < j ==> text[k] != '\n'
  }

  /** It fits, or could not be broken. */
  predicate NarrowOrSolid(line: string, lineMax: int, width: char -> nat) {
    Width(line, width) < lineMax || ' ' !in line
  }

  ghost predicate Wrapped(text: string, lineMax: int, width: char -> nat) {
    forall i: nat, j: nat :: Line(text, i, j) ==> NarrowOrSolid(text[i..j], lineMax, width)
  }

  /** Nothing but spaces was changed, and these only to newlines. */
  predicate OnlySpacesBroken(before: string, after: string) {
    |after| == |before| && forall i :: 0 <= i < |before| ==>
      after[i] == before[i] || (before[i] == ' ' && after[i] == '\n')
  }

  /** The end of the word that begins at `k`. */
  function WordEnd(text: string, k: nat): (e: nat)
    requires k <= |text|
    ensures k <= e <= |text|
    decreases |text| - k
  {
    if k == |text| || text[k] == ' ' || text[k] == '\n' then k else WordEnd(text, k + 1)
  }

  lemma {:induction false} WordGoesOn(text: string, k: nat, j: nat)
    requires k <= j < |text| && forall i :: k <= i <= j ==> text[i] != ' ' && text[i] != '\n'
    ensures j < WordEnd(text, k)
    decreases j - k
  {
    if k < j {
      WordGoesOn(text, k + 1, j);
    }
  }

  predicate SameFrom(a: string, b: string, start: nat) {
    |a| == |b| && forall i :: start <= i < |a| ==> a[i] == b[i]
  }

  /** The width of the word behind `p`. */
  function NextWord(text: string, p: nat, width: char -> nat): nat
    requires p < |text|
  {
    Width(text[p + 1..WordEnd(text, p + 1)], width)
  }

  /** The line that now ends at `p` and the word behind it would, but for one more space, not have fitted together. */
  ghost predicate Forced(before: string, after: string, p: nat, lineMax: int, width: char -> nat)
    requires p < |before| == |after|
  {
    exists i: nat :: i <= p && LineTo(after, i, p)
      && Width(after[i..p], width) + width(' ') + NextWord(before, p, width) + width(' ') >= lineMax
  }

  predicate LineTo(text: string, i: nat, p: nat)
    requires i <= p <= |text|
  {
    (i == 0 || text[i - 1] == '\n') && forall k :: i <= k < p ==> text[k] != '\n'
  }

  ghost predicate BreaksForced(before: string, after: string, lineMax: int, width: char -> nat)
    requires |before| == |after|
  {
    forall p: nat :: p < |before| && before[p] == ' ' && after[p] == '\n' ==> Forced(before, after, p, lineMax, width)
  }

  lemma {:induction false} WidthGrows(text: string, i: nat, j: nat, k: nat, width: char -> nat)
    requires i <= j <= k <= |text|
    ensures Width(text[i..j], width) <= Width(text[i..k], width)
  {
    if j < k {
      WidthGrows(text, i, j, k - 1, width);
      assert text[i..k][..k - 1 - i] == text[i..k - 1];
    }
  }

  lemma WidthSnoc(text: string, i: nat, k: nat, width: char -> nat)
    requires i <= k < |text|
    ensures Width(text[i..k + 1], width) == Width(text[i..k], width) + width(text[k])
  {
    assert text[i..k + 1][..k - i] == text[i..k];
  }

  /** A line that is followed by a newline. */
  predicate ClosedLine(text: string, i: nat, j: nat) {
    j < |text| && text[j] == '\n' && Line(text, i, j)
  }

  /** All lines that end before `start` are as they should be. */
  ghost predicate Done(text: string, start: nat, lineMax: int, width: char -> nat) {
    forall i: nat, j: nat :: j < start && ClosedLine(text, i, j) ==> NarrowOrSolid(text[i..j], lineMax, width)
  }

  /**
   The scan has come to `k`; the current line begins at `start`, `counted` is the width taken for it, `space` its last
   space or -1, and `since` the width behind that.
   */
  datatype Scan = Scan(k: nat, start: nat, counted: int, space: int, since: nat)

  predicate Current(text: string, s: Scan, lineMax: int, width: char -> nat) {
    && s.start <= s.k <= |text|
    && (s.start == 0 || text[s.start - 1] == '\n')
    && (forall i :: s.start <= i < s.k ==> text[i] != '\n')
    && Width(text[s.start..s.k], width) <= s.counted <= Width(text[s.start..s.k], width) + width(' ')
    && (s.counted < lineMax || s.space < 0)
    && if s.space < 0 then forall i :: s.start <= i < s.k ==> text[i] != ' '
       else && s.start <= s.space < s.k && text[s.space] == ' '
            && (forall i :: s.space < i < s.k ==> text[i] != ' ')
            && s.since == Width(text[s.space + 1..s.k], width)
  }

  lemma DoneExtends(text: string, start: nat, e: nat, lineMax: int, width: char -> nat)
    requires Done(text, start, lineMax, width) && start <= e < |text| && text[e] == '\n'
    requires start == 0 || text[start - 1] == '\n'
    requires forall i :: start <= i < e ==> text[i] != '\n'
    requires NarrowOrSolid(text[start..e], lineMax, width)
    ensures Done(text, e + 1, lineMax, width)
  {
    hide NarrowOrSolid;
    forall i: nat, j: nat | j < e + 1 && ClosedLine(text, i, j) ensures NarrowOrSolid(text[i..j], lineMax, width) {
      if j >= start {
        assert j == e;
        assert i == start;
      }
    }
  }

  lemma DoneElsewhere(text: string, text': string, start: nat, lineMax: int, width: char -> nat)
    requires Done(text, start, lineMax, width) && start <= |text| == |text'| && text[..start] == text'[..start]
    ensures Done(text', start, lineMax, width)
  {
    hide NarrowOrSolid;
    forall i: nat, j: nat | j < start && ClosedLine(text', i, j) ensures NarrowOrSolid(text'[i..j], lineMax, width) {
      assert forall k :: 0 <= k < start ==> text[k] == text[..start][k] == text'[..start][k] == text'[k];
      assert ClosedLine(text, i, j);
      assert text[i..j] == text[..start][i..j] == text'[..start][i..j] == text'[i..j];
    }
  }

  lemma StepNewline(text: string, s: Scan, lineMax: int, width: char -> nat)
    requires Current(text, s, lineMax, width) && Done(text, s.start, lineMax, width)
    requires s.k < |text| && text[s.k] == '\n'
    ensures Current(text, Scan(s.k + 1, s.k + 1, 0, -1, 0), lineMax, width) && Done(text, s.k + 1, lineMax, width)
  {
    DoneExtends(text, s.start, s.k, lineMax, width);
  }

  lemma StepPlain(text: string, s: Scan, lineMax: int, width: char -> nat)
    requires Current(text, s, lineMax, width) && s.k < |text| && text[s.k] != '\n' && text[s.k] != ' '
    requires s.counted + width(text[s.k]) < lineMax || s.space < 0
    ensures var w := width(text[s.k]);
            Current(text, Scan(s.k + 1, s.start, s.counted + w, s.space, s.since + w), lineMax, width)
  {
    WidthSnoc(text, s.start, s.k, width);
    if s.space >= 0 {
      WidthSnoc(text, s.space + 1, s.k, width);
    }
  }

  lemma StepSpace(text: string, s: Scan, lineMax: int, width: char -> nat)
    requires Current(text, s, lineMax, width) && s.k < |text| && text[s.k] == ' '
    requires s.counted + width(' ') < lineMax
    ensures Current(text, Scan(s.k + 1, s.start, s.counted + width(' '), s.k, 0), lineMax, width)
  {
    WidthSnoc(text, s.start, s.k, width);
  }

  /** The part of the current line before an earlier space is narrow enough. */
  lemma HeadIsDone(text: string, s: Scan, lineMax: int, width: char -> nat)
    requires Current(text, s, lineMax, width) && Done(text, s.start, lineMax, width) && s.space >= 0
    ensures Done(text[s.space := '\n'], s.space + 1, lineMax, width)
  {
    hide Done, Width;
    var text' := text[s.space := '\n'];
    DoneElsewhere(text, text', s.start, lineMax, width);
    assert text'[s.start..s.space] == text[s.start..s.space];
    WidthGrows(text, s.start, s.space, s.k, width);
    DoneExtends(text', s.start, s.space, lineMax, width);
  }

  /** The line is broken at an earlier space. */
  lemma StepBreak(text: string, s: Scan, lineMax: int, width: char -> nat)
    requires Current(text, s, lineMax, width) && Done(text, s.start, lineMax, width)
    requires s.k < |text| && text[s.k] != '\n' && text[s.k] != ' ' && s.space >= 0
    ensures var w := width(text[s.k]);
            Current(text[s.space := '\n'], Scan(s.k + 1, s.space + 1, s.since + w, -1, s.since + w), lineMax, width)
    ensures Done(text[s.space := '\n'], s.space + 1, lineMax, width)
  {
    hide Done, Width;
    HeadIsDone(text, s, lineMax, width);
    var text' := text[s.space := '\n'];
    assert text'[s.space + 1..s.k] == text[s.space + 1..s.k];
    WidthSnoc(text', s.space + 1, s.k, width);
  }

  /** The line is broken at the space just met, which then counts towards the new line as well. */
  lemma StepBreakHere(text: string, s: Scan, lineMax: int, width: char -> nat)
    requires Current(text, s, lineMax, width) && Done(text, s.start, lineMax, width) && s.k < |text| && text[s.k] == ' '
    ensures Current(text[s.k := '\n'], Scan(s.k + 1, s.k + 1, width(' '), -1, 0), lineMax, width)
    ensures Done(text[s.k := '\n'], s.k + 1, lineMax, width)
  {
    var text' := text[s.k := '\n'];
    DoneElsewhere(text, text', s.start, lineMax, width);
    assert text'[s.start..s.k] == text[s.start..s.k];
    DoneExtends(text', s.start, s.k, lineMax, width);
  }

  /** The end of the line in which `k` lies. */
  function LineEnd(text: string, k: nat): (e: nat)
    requires k <= |text|
    ensures k <= e <= |text| && (e == |text| || text[e] == '\n') && forall i :: k <= i < e ==> text[i] != '\n'
    decreases |text| - k
  {
    if k == |text| || text[k] == '\n' then k else LineEnd(text, k + 1)
  }

  /** In a text that is as it should be no place to break is found. */
  lemma NoBreakNeeded(text: string, s: Scan, lineMax: int, width: char -> nat)
    requires Wrapped(text, lineMax, width) && Current(text, s, lineMax, width)
    requires s.counted == Width(text[s.start..s.k], width) && s.k < |text| && text[s.k] != '\n'
    requires s.space >= 0 || text[s.k] == ' '
    ensures s.counted + width(text[s.k]) < lineMax
  {
    var e := LineEnd(text, s.k + 1);
    assert Line(text, s.start, e);
    WidthSnoc(text, s.start, s.k, width);
    WidthGrows(text, s.start, s.k + 1, e, width);
    var space := if s.space >= 0 then s.space else s.k;
    assert text[s.start..e][space - s.start] == ' ';
  }

  /** At the end of the text every line is done. */
  lemma AllDone(text: string, s: Scan, lineMax: int, width: char -> nat)
    requires Current(text, s, lineMax, width) && Done(text, s.start, lineMax, width) && s.k == |text|
    ensures Wrapped(text, lineMax, width)
  {
    forall i: nat, j: nat | Line(text, i, j) ensures NarrowOrSolid(text[i..j], lineMax, width) {
      if j < s.start {
        assert ClosedLine(text, i, j);
      } else {
        assert j == |text| && i == s.start;
      }
    }
  }

  /** The scan goes on without a break. */
  lemma Advance(text: string, s: Scan, lineMax: int, width: char -> nat)
    requires Current(text, s, lineMax, width) && s.k < |text| && text[s.k] != '\n'
    requires s.counted + width(text[s.k]) < lineMax || (s.space < 0 && text[s.k] != ' ')
    ensures var c := text[s.k];
            Current(text, if c == ' ' then Scan(s.k + 1, s.start, s.counted + width(c), s.k, 0)
                          else Scan(s.k + 1, s.start, s.counted + width(c), s.space, s.since + width(c)),
                    lineMax, width)
    ensures Width(text[s.start..s.k + 1], width) == Width(text[s.start..s.k], width) + width(text[s.k])
    ensures s.start <= s.k
  {
    hide Width;
    if text[s.k] == ' ' {
      StepSpace(text, s, lineMax, width);
    } else {
      StepPlain(text, s, lineMax, width);
    }
    WidthSnoc(text, s.start, s.k, width);
  }

  lemma {:induction false} WidthConcat(a: string, b: string, width: char -> nat)
    ensures Width(a + b, width) == Width(a, width) + Width(b, width)
  {
    if |b| == 0 {
      assert a + b == a;
    } else {
      assert (a + b)[..|a + b| - 1] == a + b[..|b| - 1];
      WidthConcat(a, b[..|b| - 1], width);
    }
  }

  /** A break made by the scan is a forced one. */
  lemma BreakIsForced(before: string, text: string, s: Scan, at: nat, lineMax: int, width: char -> nat)
    requires Current(text, s, lineMax, width) && s.k < |text| == |before| && text[s.k] != '\n'
    requires SameFrom(text, before, s.start)
    requires at == if text[s.k] == ' ' then s.k else s.space
    requires s.counted + width(text[s.k]) >= lineMax
    ensures at < |text| && Forced(before, text[at := '\n'], at, lineMax, width)
  {
    hide Width;
    var after := text[at := '\n'];
    assert after[s.start..at] == text[s.start..at];
    if at < s.k {
      var word := text[at + 1..s.k];
      assert text[s.start..s.k] == text[s.start..at] + ([' '] + word);
      WidthConcat(text[s.start..at], [' '] + word, width);
      WidthConcat([' '], word, width);
      OneSpace(width);
      WidthSnoc(text, at + 1, s.k, width);
      var e := WordEnd(before, at + 1);
      WordGoesOn(before, at + 1, s.k);
      assert before[at + 1..s.k + 1] == text[at + 1..s.k + 1];
      WidthGrows(before, at + 1, s.k + 1, e, width);
    }
    assert LineTo(after, s.start, at);
  }

  lemma OneSpace(width: char -> nat)
    ensures Width([' '], width) == width(' ')
  {
    assert [' '][..0] == [];
  }

  /** It does not disturb the breaks before it. */
  lemma ForcedStays(before: string, text: string, start: nat, at: nat, lineMax: int, width: char -> nat)
    requires |before| == |text| && start <= at < |text| && BreaksForced(before, text, lineMax, width)
    requires SameFrom(text, before, start) && before[at] == ' '
    requires Forced(before, text[at := '\n'], at, lineMax, width)
    ensures BreaksForced(before, text[at := '\n'], lineMax, width)
  {
    hide Width, WordEnd;
    var after := text[at := '\n'];
    forall p: nat | p < |before| && before[p] == ' ' && after[p] == '\n' && p != at
      ensures Forced(before, after, p, lineMax, width)
    {
      assert Forced(before, text, p, lineMax, width);
      var i: nat :| i <= p && LineTo(text, i, p)
        && Width(text[i..p], width) + width(' ') + NextWord(before, p, width) + width(' ') >= lineMax;
      assert after[i..p] == text[i..p];
      assert LineTo(after, i, p);
    }
  }

  /** The scan breaks the line: at the space just met, or else at the last one before it. */
  lemma BreakAt(before: string, text: string, s: Scan, at: nat, lineMax: int, width: char -> nat)
    requires Current(text, s, lineMax, width) && Done(text, s.start, lineMax, width)
    requires s.k < |text| && text[s.k] != '\n'
    requires at == if text[s.k] == ' ' then s.k else s.space
    requires OnlySpacesBroken(before, text)
    ensures s.start <= at <= s.k && text[at] == ' ' && OnlySpacesBroken(before, text[at := '\n'])
    ensures var since := if text[s.k] == ' ' then 0 else s.since + width(text[s.k]);
            var counted := if text[s.k] == ' ' then width(' ') else s.since + width(text[s.k]);
            Current(text[at := '\n'], Scan(s.k + 1, at + 1, counted, -1, since), lineMax, width)
    ensures Done(text[at := '\n'], at + 1, lineMax, width)
  {
    hide Width, Done, NarrowOrSolid;
    if text[s.k] == ' ' {
      StepBreakHere(text, s, lineMax, width);
    } else {
      StepBreak(text, s, lineMax, width);
    }
  }

  lemma StartScan(text: string, lineMax: int, width: char -> nat)
    ensures Current(text, Scan(0, 0, 0, -1, 0), lineMax, width) && Done(text, 0, lineMax, width)
    ensures Width(text[0..0], width) == 0
  {
  }

  lemma {:induction false} HasEnd(buffer: string)
    requires '\0' in buffer
    ensures TextLength(buffer) < |buffer|
  {
    if buffer[0] != '\0' {
      HasEnd(buffer[1..]);
    }
  }

  lemma NothingBroken(text: string, lineMax: int, width: char -> nat)
    ensures BreaksForced(text, text, lineMax, width)
  {
  }

  lemma NoWidth(text: string, k: nat, width: char -> nat)
    requires k <= |text|
    ensures Width(text[k..k], width) == 0
  {
  }

  /**
   BreakLongLanguageString. Afterwards every line is narrower than the limit or contains no space; a text of which
   that was true already stays as it is, and otherwise a line is only broken where the next word does not fit.
   */
  method BreakLongLanguageString(str: array<char>, lineMax: int, width: char -> nat)
    requires '\0' in str[..]
    modifies str
    ensures var n := TextLength(old(str[..]));
            && str[n..] == old(str[n..])
            && OnlySpacesBroken(old(str[..n]), str[..n])
            && Wrapped(str[..n], lineMax, width)
            && BreaksForced(old(str[..n]), str[..n], lineMax, width)
            && (Wrapped(old(str[..n]), lineMax, width) ==> str[..n] == old(str[..n]))
  {
    hide Wrapped, Done, Current, Width, BreaksForced, Forced;
    ghost var n := TextLength(str[..]);
    HasEnd(str[..]);
    ghost var t0, start := str[..n], 0;
    ghost var tail := str[n..];
    var k, counted, space, since := 0, 0, -1, 0;
    StartScan(t0, lineMax, width);
    NothingBroken(t0, lineMax, width);
    while str[k] != '\0'
      invariant start <= k <= n == |t0| && n < str.Length && str[n] == '\0' && str[n..] == tail
      invariant forall i :: 0 <= i < n ==> str[i] != '\0'
      invariant since >= 0 && Current(str[..n], Scan(k, start, counted, space, since), lineMax, width)
      invariant Done(str[..n], start, lineMax, width) && OnlySpacesBroken(t0, str[..n])
      invariant BreaksForced(t0, str[..n], lineMax, width) && SameFrom(str[..n], t0, start)
      invariant Wrapped(t0, lineMax, width) ==> str[..n] == t0 && counted == Width(t0[start..k], width)
      decreases n - k
    {
      ghost var t, scan := str[..n], Scan(k, start, counted, space, since);
      var c := str[k];
      if c == '\n' {
        StepNewline(t, scan, lineMax, width);
        NoWidth(t0, k + 1, width);
        start := k + 1;
        counted, space, since := 0, -1, 0;
      } else {
        if Wrapped(t0, lineMax, width) && (space >= 0 || c == ' ') {
          NoBreakNeeded(t0, scan, lineMax, width);
        }
        if c == ' ' {
          space, since := k, 0;
        }
        var w := width(c);
        if counted + w >= lineMax && space >= 0 {
          BreakAt(t0, t, scan, space, lineMax, width);
          BreakIsForced(t0, t, scan, space, lineMax, width);
          ForcedStays(t0, t, start, space, lineMax, width);
          counted := since;
          str[space] := '\n';
          assert str[..n] == t[space := '\n'];
          start := space + 1;
          space := -1;
        } else {
          Advance(t, scan, lineMax, width);
        }
        counted := counted + w;
        if c != ' ' {
          since := since + w;
        }
      }
      k := k + 1;
    }
    AllDone(str[..n], Scan(k, start, counted, space, since), lineMax, width);
  }
}
