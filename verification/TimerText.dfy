/**
 The text of a timer list: entries separated by `;`, each a letter, a number, `=` and the
 name of an action.
 */
module TimerText {
  import opened TimerSchedule

  // ---------------------------------------------------------------- splitting

  /** `indexof`: the first `c` from `start` on, or -1. */
  function IndexOf(s: string, c: char, start: nat): (i: int)
    requires start <= |s|
    ensures i == -1 <==> c !in s[start..]
    ensures i != -1 ==> start <= i < |s| && s[i] == c && c !in s[start..i]
    decreases |s| - start
  {
    if start == |s| then -1
    else if s[start] == c then start
    else
      var i := IndexOf(s, c, start + 1);
      assert s[start..] == [s[start]] + s[start + 1..];
      assert i != -1 ==> s[start..i] == [s[start]] + s[start + 1..i];
      i
  }

  /** The pieces between the separators; a separator at an end makes an empty piece. */
  function Pieces(s: string, c: char): seq<string>
    decreases |s|
  {
    var i := IndexOf(s, c, 0);
    if i == -1 then [s] else [s[..i]] + Pieces(s[i + 1..], c)
  }

  function Join(p: seq<string>, c: char): string
    requires p != []
  {
    if |p| == 1 then p[0] else p[0] + [c] + Join(p[1..], c)
  }

  lemma IndexShift(s: string, c: char, start: nat)
    requires start <= |s|
    ensures var i := IndexOf(s[start..], c, 0);
      IndexOf(s, c, start) == if i == -1 then -1 else start + i
  {
    var i, j := IndexOf(s[start..], c, 0), IndexOf(s, c, start);
    assert s[start..][0..] == s[start..];
    if i != -1 && j != -1 {
      FirstIsUnique(s[start..], c, i, j - start);
    }
  }

  lemma FirstIsUnique(s: string, c: char, i: nat, j: nat)
    requires i < |s| && j < |s| && s[i] == c && s[j] == c && c !in s[..i] && c !in s[..j]
    ensures i == j
  {
    assert forall k | 0 <= k < j :: s[k] == s[..j][k] && s[k] in s[..j];
    assert forall k | 0 <= k < i :: s[k] == s[..i][k] && s[k] in s[..i];
  }

  lemma PiecesStep(s: string, c: char)
    ensures var k := IndexOf(s, c, 0); Pieces(s, c) == if k == -1 then [s] else [s[..k]] + Pieces(s[k + 1..], c)
  {
    hide IndexOf;
  }

  /** The first piece from `start` on, and the rest. */
  lemma PieceStep(s: string, c: char, start: nat)
    requires start <= |s|
    ensures var i := IndexOf(s, c, start);
      && (i == -1 ==> Pieces(s[start..], c) == [s[start..]])
      && (i != -1 ==> Pieces(s[start..], c) == [s[start..i]] + Pieces(s[i + 1..], c))
  {
    hide Pieces;
    IndexShift(s, c, start);
    PiecesStep(s[start..], c);
    hide IndexOf;
    var i := IndexOf(s, c, start);
    if i != -1 {
      SubSlices(s, start, i);
    }
  }

  lemma SubSlices(s: string, start: nat, i: nat)
    requires start <= i < |s|
    ensures s[start..][..i - start] == s[start..i] && s[start..][i - start + 1..] == s[i + 1..]
  {
  }

  /** `split`. */
  method Split(p1: string, c: char) returns (splits: seq<string>)
    ensures splits == Pieces(p1, c)
  {
    hide Pieces, IndexOf;
    splits := [];
    var i := 0;
    assert p1[0..] == p1;
    while true
      invariant 0 <= i <= |p1|
      invariant splits + Pieces(p1[i..], c) == Pieces(p1, c)
      decreases |p1| - i
    {
      PieceStep(p1, c, i);
      var start := i;
      var end := IndexOf(p1, c, start);
      if end == -1 {
        end := |p1|;
      }
      assert p1[start..|p1|] == p1[start..];
      splits := splits + [p1[start..end]];
      i := end + 1;
      if i > |p1| {
        break;
      }
    }
  }

  /** Joining the pieces gives the text back. */
  lemma {:induction false} JoinPieces(s: string, c: char)
    ensures Pieces(s, c) != [] && Join(Pieces(s, c), c) == s
    decreases |s|
  {
    var i := IndexOf(s, c, 0);
    if i != -1 {
      JoinPieces(s[i + 1..], c);
      assert Pieces(s, c)[1..] == Pieces(s[i + 1..], c);
      assert s == s[..i] + [c] + s[i + 1..];
    }
  }

  /** Splitting joined pieces gives the pieces back, when no separator is in them. */
  lemma {:induction false} PiecesOfJoin(p: seq<string>, c: char)
    requires p != [] && forall i | 0 <= i < |p| :: c !in p[i]
    ensures Pieces(Join(p, c), c) == p
  {
    if |p| == 1 {
      OnePiece(p[0], c);
    } else {
      PiecesOfJoin(p[1..], c);
      FirstPiece(p[0], Join(p[1..], c), c);
      hide Pieces;
      assert p == [p[0]] + p[1..];
    }
  }

  lemma OnePiece(s: string, c: char)
    requires c !in s
    ensures Pieces(s, c) == [s]
  {
    assert s[0..] == s;
  }

  lemma FirstPiece(a: string, b: string, c: char)
    requires c !in a
    ensures Pieces(a + [c] + b, c) == [a] + Pieces(b, c)
  {
    var s := a + [c] + b;
    var i := IndexOf(s, c, 0);
    PiecesStep(s, c);
    hide Pieces, IndexOf;
    assert s[|a|] == c && s[..|a|] == a;
    assert s[0..] == s && s[|a|] in s;
    assert s[0..i] == s[..i];
    FirstIsUnique(s, c, i, |a|);
    assert s[|a| + 1..] == b;
  }

  // ---------------------------------------------------------------- numbers

  predicate IsDigit(c: char) {
    '0' <= c <= '9'
  }

  function DigitsFrom(s: string, acc: nat): nat {
    if s == [] || !IsDigit(s[0]) then acc
    else DigitsFrom(s[1..], 10 * acc + (s[0] as int - '0' as int))
  }

  /** `atoi`, on text that starts with a digit or a minus sign. */
  function Atoi(s: string): int {
    if s != [] && s[0] == '-' then 0 - DigitsFrom(s[1..], 0) else DigitsFrom(s, 0)
  }

  function Decimal(n: nat): (s: string)
    ensures s != [] && forall i | 0 <= i < |s| :: IsDigit(s[i])
  {
    var d := ['0' + (n % 10) as char];
    if n < 10 then d else Decimal(n / 10) + d
  }

  lemma {:induction false} DigitsSnoc(s: string, d: char, acc: nat)
    requires (forall i | 0 <= i < |s| :: IsDigit(s[i])) && IsDigit(d)
    ensures DigitsFrom(s + [d], acc) == 10 * DigitsFrom(s, acc) + (d as int - '0' as int)
    decreases |s|
  {
    if s == [] {
      assert [d][1..] == [];
      assert DigitsFrom([d], acc) == DigitsFrom([], 10 * acc + (d as int - '0' as int));
    } else {
      assert (s + [d])[1..] == s[1..] + [d];
      DigitsSnoc(s[1..], d, 10 * acc + (s[0] as int - '0' as int));
    }
  }

  lemma {:induction false} DecimalReadsBack(n: nat)
    ensures DigitsFrom(Decimal(n), 0) == n
  {
    var d := '0' + (n % 10) as char;
    if n < 10 {
      DigitsSnoc([], d, 0);
      assert [] + [d] == [d];
    } else {
      DecimalReadsBack(n / 10);
      DigitsSnoc(Decimal(n / 10), d, 0);
    }
  }

  lemma AtoiDecimal(n: nat)
    ensures Atoi(Decimal(n)) == n
  {
    DecimalReadsBack(n);
    assert IsDigit(Decimal(n)[0]);
  }

  // ---------------------------------------------------------------- entries

  /** A timer with the name of its action. */
  datatype Entry = Entry(timer: Timer, action: string)

  /** An entry that has its `=`; without one the source reads a pointer it never set. */
  predicate Readable(s: string) {
    s != [] && s[0] in "flw" ==> |Pieces(s, '=')| >= 2
  }

  /** The branches of `user_platform_timer_first_start`. The first piece of a readable
      entry starts with the entry's letter. */
  function ParseEntry(s: string): Entry
    requires Readable(s)
  {
    if s == [] || s[0] !in "flw" then Entry(Unknown, [])
    else
      var p := Pieces(s, '=');
      var n := Atoi(if p[0] == [] then [] else p[0][1..]);
      Entry(if s[0] == 'f' then Fixed(n) else if s[0] == 'l' then Loop(n) else Weekly(n), p[1])
  }

  /** How a server writes an entry. */
  function FormatEntry(e: Entry): string
    requires Writable(e)
  {
    var t := match e.timer
      case Fixed(at) => "f" + Decimal(at)
      case Loop(period) => "l" + Decimal(period)
      case Weekly(offset) => "w" + Decimal(offset);
    t + "=" + e.action
  }

  predicate Writable(e: Entry) {
    && '=' !in e.action && ';' !in e.action
    && match e.timer
       case Fixed(at) => at >= 0
       case Loop(period) => period >= 0
       case Weekly(offset) => offset >= 0
       case Unknown => false
  }

  function Letter(t: Timer): char
    requires !t.Unknown?
  {
    match t case Fixed(_) => 'f' case Loop(_) => 'l' case Weekly(_) => 'w'
  }

  function Number(t: Timer): int
    requires !t.Unknown?
  {
    match t case Fixed(at) => at case Loop(period) => period case Weekly(offset) => offset
  }

  lemma EntryReadsBack(e: Entry)
    requires Writable(e)
    ensures Readable(FormatEntry(e)) && ParseEntry(FormatEntry(e)) == e
    ensures ';' !in FormatEntry(e)
  {
    hide Pieces, Join, Atoi, Decimal;
    var first := [Letter(e.timer)] + Decimal(Number(e.timer));
    EntryPieces(e);
    AtoiDecimal(Number(e.timer));
    assert first[1..] == Decimal(Number(e.timer));
  }

  lemma EntryPieces(e: Entry)
    requires Writable(e)
    ensures var first := [Letter(e.timer)] + Decimal(Number(e.timer));
      FormatEntry(e) == first + "=" + e.action && Pieces(FormatEntry(e), '=') == [first, e.action] && ';' !in first
  {
    hide Pieces;
    var first := [Letter(e.timer)] + Decimal(Number(e.timer));
    assert '=' !in first && ';' !in first;
    FirstPiece(first, e.action, '=');
    OnePiece(e.action, '=');
    assert FormatEntry(e) == first + ['='] + e.action;
  }

  /** `f` is for a fixed timer, `l` for a loop and `w` for a weekly one. */
  lemma LettersRead(n: nat, action: string)
    requires '=' !in action && ';' !in action
    ensures Readable("f" + Decimal(n) + "=" + action) && Readable("l" + Decimal(n) + "=" + action)
    ensures Readable("w" + Decimal(n) + "=" + action)
    ensures ParseEntry("f" + Decimal(n) + "=" + action) == Entry(Fixed(n), action)
    ensures ParseEntry("l" + Decimal(n) + "=" + action) == Entry(Loop(n), action)
    ensures ParseEntry("w" + Decimal(n) + "=" + action) == Entry(Weekly(n), action)
  {
    hide ParseEntry, Readable, Decimal;
    EntryReadsBack(Entry(Fixed(n), action));
    EntryReadsBack(Entry(Loop(n), action));
    EntryReadsBack(Entry(Weekly(n), action));
  }

  function FormatAll(es: seq<Entry>): seq<string>
    requires forall i | 0 <= i < |es| :: Writable(es[i])
  {
    seq(|es|, i requires 0 <= i < |es| => FormatEntry(es[i]))
  }

  /** A list in the server's format is read as it was meant. */
  lemma ListReadsBack(es: seq<Entry>)
    requires es != [] && forall i | 0 <= i < |es| :: Writable(es[i])
    ensures var p := Pieces(Join(FormatAll(es), ';'), ';');
      |p| == |es| && forall i | 0 <= i < |es| :: Readable(p[i]) && ParseEntry(p[i]) == es[i]
  {
    forall i | 0 <= i < |es|
      ensures ';' !in FormatAll(es)[i] && Readable(FormatAll(es)[i]) && ParseEntry(FormatAll(es)[i]) == es[i]
    {
      EntryReadsBack(es[i]);
    }
    PiecesOfJoin(FormatAll(es), ';');
  }

  /** An empty entry, as a `;` at the end of the list makes it, stops the whole chain. */
  lemma TrailingSeparatorStops(es: seq<Entry>)
    requires es != [] && forall i | 0 <= i < |es| :: Writable(es[i])
    ensures var p := Pieces(Join(FormatAll(es), ';') + ";", ';');
      |p| == |es| + 1 && Readable(p[|es|]) && ParseEntry(p[|es|]).timer == Unknown
  {
    var q := FormatAll(es) + [[]];
    forall i | 0 <= i < |es|
      ensures ';' !in q[i]
    {
      EntryReadsBack(es[i]);
    }
    JoinWithEmpty(FormatAll(es), ';');
    PiecesOfJoin(q, ';');
  }

  lemma {:induction false} JoinWithEmpty(p: seq<string>, c: char)
    requires p != []
    ensures Join(p + [[]], c) == Join(p, c) + [c]
  {
    var q := p + [[]];
    if |p| == 1 {
      assert q[1..] == [[]];
    } else {
      JoinWithEmpty(p[1..], c);
      assert q[1..] == p[1..] + [[]];
    }
  }
}
