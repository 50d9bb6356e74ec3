/**
 * Duration formatting (TimeUtil.formatDuration): a count of seconds is split into days, hours,
 * minutes and seconds with Java's truncating long arithmetic, and only some of the parts are shown.
 */
module TimeFormat {

  /** Java's `/` on longs: truncates toward zero. */
  function JavaDiv(a: int, b: int): int
    requires b > 0
  {
    if a >= 0 then a / b else -((-a) / b)
  }

  /**
   * The quotient has the sign of the dividend, and `b` times it is the multiple of `b` nearest
   * to `a` on the side of zero.
   */
  lemma JavaDivTruncates(a: int, b: int)
    requires b > 0
    ensures a >= 0 ==> JavaDiv(a, b) >= 0 && b * JavaDiv(a, b) <= a < b * JavaDiv(a, b) + b
    ensures a < 0 ==> JavaDiv(a, b) <= 0 && b * JavaDiv(a, b) - b < a <= b * JavaDiv(a, b)
  {
  }

  /** Java's `%` on longs: the remainder takes the sign of the dividend. */
  function JavaRem(a: int, b: int): (r: int)
    requires b > 0
    ensures a == b * JavaDiv(a, b) + r
    ensures a >= 0 ==> 0 <= r < b
    ensures a <= 0 ==> -b < r <= 0
  {
    a - b * JavaDiv(a, b)
  }

  datatype Span = Span(days: int, hours: int, minutes: int, secs: int)

  /** The four quantities formatDuration computes before it builds any text. */
  function Decompose(s: int): Span
  {
    Span(JavaDiv(s, 86400), JavaDiv(JavaRem(s, 86400), 3600), JavaDiv(JavaRem(s, 3600), 60), JavaRem(s, 60))
  }

  datatype TimeUnit = Days | Hours | Minutes | Seconds

  /** Seconds per unit. */
  function Weight(u: TimeUnit): nat
  {
    match u
    case Days => 86400
    case Hours => 3600
    case Minutes => 60
    case Seconds => 1
  }

  /** Position of a unit in the output. */
  function Rank(u: TimeUnit): nat
  {
    match u
    case Days => 0
    case Hours => 1
    case Minutes => 2
    case Seconds => 3
  }

  /** One shown part, before localisation: the unit and its value. */
  datatype Part = Part(unit: TimeUnit, value: int)

  /**
   * The parts formatDuration appends, in order: days when positive, hours when hours or days are
   * positive, minutes when any larger unit or minutes are positive, seconds only when positive.
   */
  function FormatParts(s: int): seq<Part>
  {
    var sp := Decompose(s);
    (if sp.days > 0 then [Part(Days, sp.days)] else [])
    + (if sp.hours > 0 || sp.days > 0 then [Part(Hours, sp.hours)] else [])
    + (if sp.minutes > 0 || sp.hours > 0 || sp.days > 0 then [Part(Minutes, sp.minutes)] else [])
    + (if sp.secs > 0 then [Part(Seconds, sp.secs)] else [])
  }

  /** The seconds the shown parts stand for. */
  function Total(parts: seq<Part>): int
  {
    if parts == [] then 0 else parts[0].value * Weight(parts[0].unit) + Total(parts[1..])
  }

  lemma MulAtLeast(b: int, d: int)
    requires b > 0 && d >= 1
    ensures b * d >= b
  {
  }

  lemma DivModUnique(a: int, b: int, q: int, r: int)
    requires b > 0 && a == b * q + r && 0 <= r < b
    ensures a / b == q && a % b == r
  {
    var q', r' := a / b, a % b;
    assert b * q' + r' == b * q + r;
    if q' > q {
      MulAtLeast(b, q' - q);
      assert false;
    } else if q' < q {
      MulAtLeast(b, q - q');
      assert false;
    }
  }

  /** For a non-negative duration the parts recombine to it, each within its unit's range. */
  lemma DecomposeRecombines(s: int)
    requires s >= 0
    ensures var sp := Decompose(s);
      && sp.days * 86400 + sp.hours * 3600 + sp.minutes * 60 + sp.secs == s
      && sp.days >= 0 && 0 <= sp.hours < 24 && 0 <= sp.minutes < 60 && 0 <= sp.secs < 60
  {
    var q, r := s / 86400, s % 86400;
    var h, r2 := r / 3600, r % 3600;
    assert 0 <= h < 24;
    assert s == 3600 * (24 * q + h) + r2;
    DivModUnique(s, 3600, 24 * q + h, r2);
    var m, r3 := r2 / 60, r2 % 60;
    assert s == 60 * (60 * (24 * q + h) + m) + r3;
    DivModUnique(s, 60, 60 * (24 * q + h) + m, r3);
  }

  /** Durations of zero or less, as well as the negative remainders Java produces, show nothing. */
  lemma NonPositiveShowsNothing(s: int)
    requires s <= 0
    ensures FormatParts(s) == []
  {
    var sp := Decompose(s);
    assert sp.days <= 0 && sp.hours <= 0 && sp.minutes <= 0 && sp.secs <= 0;
  }

  lemma {:induction false} TotalAppend(a: seq<Part>, b: seq<Part>)
    ensures Total(a + b) == Total(a) + Total(b)
  {
    if a != [] {
      assert (a + b)[1..] == a[1..] + b;
      TotalAppend(a[1..], b);
    } else {
      assert a + b == b;
    }
  }

  function Shown(p: Part, visible: bool): seq<Part>
  {
    if visible then [p] else []
  }

  /** A hidden part is zero, so shown or not it stands for its value in seconds. */
  lemma ShownTotal(p: Part, visible: bool)
    requires visible || p.value == 0
    ensures Total(Shown(p, visible)) == p.value * Weight(p.unit)
  {
    if visible { assert Shown(p, visible)[1..] == []; }
  }

  /** A positive duration shows at least one part, and what it shows adds back up to the duration. */
  lemma PositiveShowsItsValue(s: int)
    requires s > 0
    ensures FormatParts(s) != []
    ensures Total(FormatParts(s)) == s
  {
    DecomposeRecombines(s);
    var sp := Decompose(s);
    var d := Shown(Part(Days, sp.days), sp.days > 0);
    var h := Shown(Part(Hours, sp.hours), sp.hours > 0 || sp.days > 0);
    var m := Shown(Part(Minutes, sp.minutes), sp.minutes > 0 || sp.hours > 0 || sp.days > 0);
    var c := Shown(Part(Seconds, sp.secs), sp.secs > 0);
    assert FormatParts(s) == d + h + m + c;
    assert Total(d + h + m + c) == Total(d) + Total(h) + Total(m) + Total(c) by {
      TotalAppend(d + h + m, c);
      TotalAppend(d + h, m);
      TotalAppend(d, h);
    }
    assert Total(d) == sp.days * 86400 by {
      ShownTotal(Part(Days, sp.days), sp.days > 0);
    }
    assert Total(h) == sp.hours * 3600 by {
      ShownTotal(Part(Hours, sp.hours), sp.hours > 0 || sp.days > 0);
    }
    assert Total(m) == sp.minutes * 60 by {
      ShownTotal(Part(Minutes, sp.minutes), sp.minutes > 0 || sp.hours > 0 || sp.days > 0);
    }
    assert Total(c) == sp.secs by {
      ShownTotal(Part(Seconds, sp.secs), sp.secs > 0);
    }
  }

  /**
   * The shown parts come in the order days, hours, minutes, seconds, each unit at most once;
   * the first shown part is positive and no shown part is negative.
   */
  lemma PartsOrderedAndLeading(s: int)
    ensures forall i, j | 0 <= i < j < |FormatParts(s)| :: Rank(FormatParts(s)[i].unit) < Rank(FormatParts(s)[j].unit)
    ensures FormatParts(s) != [] ==> FormatParts(s)[0].value > 0
    ensures forall i | 0 <= i < |FormatParts(s)| :: FormatParts(s)[i].value >= 0
  {
    if s >= 0 { DecomposeRecombines(s); } else { NonPositiveShowsNothing(s); }
  }

  /** A unit is shown exactly when the visibility rule for it holds. */
  lemma VisibilityRules(s: int)
    ensures var sp := Decompose(s); var units := set p | p in FormatParts(s) :: p.unit;
      && (Days in units <==> sp.days > 0)
      && (Hours in units <==> sp.hours > 0 || sp.days > 0)
      && (Minutes in units <==> sp.minutes > 0 || sp.hours > 0 || sp.days > 0)
      && (Seconds in units <==> sp.secs > 0)
  {
    var sp := Decompose(s);
    var parts := FormatParts(s);
    if sp.days > 0 { assert Part(Days, sp.days) in parts; }
    if sp.hours > 0 || sp.days > 0 { assert Part(Hours, sp.hours) in parts; }
    if sp.minutes > 0 || sp.hours > 0 || sp.days > 0 { assert Part(Minutes, sp.minutes) in parts; }
    if sp.secs > 0 { assert Part(Seconds, sp.secs) in parts; }
  }

  /** Java's `String.trim`: drops leading and trailing characters at or below the space character. */
  function Trim(s: string): string
  {
    TrimStart(TrimEnd(s))
  }

  function TrimEnd(s: string): string
  {
    if s != [] && s[|s| - 1] <= ' ' then TrimEnd(s[..|s| - 1]) else s
  }

  function TrimStart(s: string): string
  {
    if s != [] && s[0] <= ' ' then TrimStart(s[1..]) else s
  }

  /** The buffer formatDuration builds: every localised part followed by one space. */
  function Appended(texts: seq<string>): string
  {
    if texts == [] then "" else texts[0] + " " + Appended(texts[1..])
  }

  /** The same texts separated by single spaces. */
  function Joined(texts: seq<string>): string
  {
    if texts == [] then "" else if |texts| == 1 then texts[0] else texts[0] + " " + Joined(texts[1..])
  }

  /** A localised text that trimming cannot eat into. */
  predicate Solid(t: string)
  {
    t != [] && t[0] > ' ' && t[|t| - 1] > ' '
  }

  lemma {:induction false} AppendedIsJoinedPlusSpace(texts: seq<string>)
    requires texts != [] && forall i | 0 <= i < |texts| :: Solid(texts[i])
    ensures Appended(texts) == Joined(texts) + " "
    ensures Solid(Joined(texts))
  {
    if |texts| == 1 {
      assert Appended(texts[1..]) == "";
    } else {
      AppendedIsJoinedPlusSpace(texts[1..]);
      var j := Joined(texts[1..]);
      assert Joined(texts) == texts[0] + " " + j;
      assert Joined(texts)[|Joined(texts)| - 1] == j[|j| - 1];
    }
  }

  /** The trimmed buffer is the parts separated by single spaces, with nothing before or after. */
  lemma {:induction false} TrimmedIsJoined(texts: seq<string>)
    requires forall i | 0 <= i < |texts| :: Solid(texts[i])
    ensures Trim(Appended(texts)) == Joined(texts)
  {
    if texts != [] {
      AppendedIsJoinedPlusSpace(texts);
      var j := Joined(texts);
      assert (j + " ")[..|j + " "| - 1] == j;
      assert TrimEnd(j + " ") == TrimEnd(j);
    }
  }
}
