/**
 * Text helpers with the meaning Go's `fmt` and `strings` packages give them.
 * A Go string is modelled as a sequence of characters, one per rune.
 */
module Text {

  /** A run of `n` blanks. */
  function Spaces(n: nat): (r: string)
    ensures |r| == n
    ensures forall i :: 0 <= i < n ==> r[i] == ' '
  {
    seq(n, _ => ' ')
  }

  /**
   * The `%-Ns` verb of `fmt.Printf`: `s` left-justified in a field at least
   * `width` runes wide. Padding never truncates.
   */
  function PadRight(s: string, width: nat): (r: string)
    ensures |r| == if |s| < width then width else |s|
    ensures r[..|s|] == s
    ensures forall i :: |s| <= i < |r| ==> r[i] == ' '
  {
    if |s| < width then s + Spaces(width - |s|) else s
  }

  /** The padding `PadRight` adds is exactly a run of blanks after the text. */
  lemma PadRightIsTextThenBlanks(s: string, width: nat)
    ensures PadRight(s, width) == s + Spaces(|PadRight(s, width)| - |s|)
  {
    var r := PadRight(s, width);
    assert r == r[..|s|] + r[|s|..];
  }

  /** `strings.ReplaceAll(s, from, to)` for one-rune `from` and `to`. */
  function ReplaceAll(s: string, from: char, to: char): (r: string)
    ensures |r| == |s|
    ensures forall i :: 0 <= i < |s| ==> r[i] == if s[i] == from then to else s[i]
  {
    if |s| == 0 then "" else [if s[0] == from then to else s[0]] + ReplaceAll(s[1..], from, to)
  }

  /** After the replacement no `from` is left, and nothing else was touched. */
  lemma {:induction false} ReplaceAllRemoves(s: string, from: char, to: char)
    requires from != to
    ensures from !in ReplaceAll(s, from, to)
    ensures forall c :: c != from && c != to ==> (c in ReplaceAll(s, from, to) <==> c in s)
  {
    var r := ReplaceAll(s, from, to);
    forall c | c != from && c != to
      ensures c in r <==> c in s
    {
      if c in r {
        var i :| 0 <= i < |r| && r[i] == c;
        assert s[i] == c;
      }
      if c in s {
        var i :| 0 <= i < |s| && s[i] == c;
        assert r[i] == c;
      }
    }
  }

  /** Replacement works piece by piece. */
  lemma ReplaceAllAppend(s: string, t: string, from: char, to: char)
    ensures ReplaceAll(s + t, from, to) == ReplaceAll(s, from, to) + ReplaceAll(t, from, to)
  {
    var l, r := ReplaceAll(s + t, from, to), ReplaceAll(s, from, to) + ReplaceAll(t, from, to);
    assert |l| == |r|;
    forall i | 0 <= i < |l|
      ensures l[i] == r[i]
    {
      if i < |s| {
        assert (s + t)[i] == s[i];
      } else {
        assert (s + t)[i] == t[i - |s|];
      }
    }
  }

  // ---------------------------------------------------------------------
  // Decimal numerals: the `%d` verb for a non-negative integer.

  predicate IsDigit(c: char) {
    '0' <= c <= '9'
  }

  function DigitChar(d: nat): (c: char)
    requires d < 10
    ensures IsDigit(c)
  {
    ('0' as int + d) as char
  }

  function DigitValue(c: char): (d: nat)
    requires IsDigit(c)
    ensures d < 10
  {
    c as int - '0' as int
  }

  /** The `%d` rendering of `n`: its decimal digits, most significant first, with no leading zero. */
  function Decimal(n: nat): (r: string)
    ensures |r| > 0
    ensures forall i :: 0 <= i < |r| ==> IsDigit(r[i])
    ensures r[0] == '0' <==> n == 0
    decreases n
  {
    if n < 10 then [DigitChar(n)] else Decimal(n / 10) + [DigitChar(n % 10)]
  }

  /** Reads a string of decimal digits back as a number. */
  function ParseDecimal(s: string): nat
    requires forall i :: 0 <= i < |s| ==> IsDigit(s[i])
  {
    if |s| == 0 then 0 else ParseDecimal(s[..|s| - 1]) * 10 + DigitValue(s[|s| - 1])
  }

  /** `%d` loses nothing: reading the numeral back gives the number. */
  lemma {:induction false} ParseDecimalOfDecimal(n: nat)
    ensures ParseDecimal(Decimal(n)) == n
    decreases n
  {
    var r := Decimal(n);
    if n >= 10 {
      assert r[..|r| - 1] == Decimal(n / 10);
      ParseDecimalOfDecimal(n / 10);
    }
  }

  // ---------------------------------------------------------------------
  // Splitting text at a separator rune.

  /** Length of the longest prefix of `s` that does not contain `sep`. */
  function SpanBefore(s: string, sep: char): (n: nat)
    ensures n <= |s|
    ensures forall i :: 0 <= i < n ==> s[i] != sep
    ensures n < |s| ==> s[n] == sep
  {
    if |s| == 0 || s[0] == sep then 0 else 1 + SpanBefore(s[1..], sep)
  }

  /** When `w` holds no `sep` and `t` is empty or starts with `sep`, the span of `w + t` is `w`. */
  lemma {:induction false} SpanBeforeOfPrefix(w: string, t: string, sep: char)
    requires sep !in w
    requires |t| == 0 || t[0] == sep
    ensures SpanBefore(w + t, sep) == |w|
  {
    if |w| > 0 {
      assert (w + t)[1..] == w[1..] + t;
      SpanBeforeOfPrefix(w[1..], t, sep);
    }
  }

  /** The blank-separated words of `s`, as a reader would split a line: runs of blanks separate, none is empty. */
  function Words(s: string): (ws: seq<string>)
    ensures forall i :: 0 <= i < |ws| ==> |ws[i]| > 0 && ' ' !in ws[i]
    decreases |s|
  {
    if |s| == 0 then []
    else if s[0] == ' ' then Words(s[1..])
    else
      var n := SpanBefore(s, ' ');
      [s[..n]] + Words(s[n..])
  }

  /** Blanks in front of a text add no words. */
  lemma {:induction false} WordsSkipBlanks(k: nat, t: string)
    ensures Words(Spaces(k) + t) == Words(t)
  {
    var s := Spaces(k) + t;
    if k == 0 {
      assert s == t;
    } else {
      assert s[0] == ' ';
      assert s[1..] == Spaces(k - 1) + t;
      WordsSkipBlanks(k - 1, t);
    }
  }

  /** A word followed by blanks, or by nothing, is read back as that word. */
  lemma WordsOfWord(w: string, t: string)
    requires |w| > 0 && ' ' !in w
    requires |t| == 0 || t[0] == ' '
    ensures Words(w + t) == [w] + Words(t)
  {
    var s := w + t;
    SpanBeforeOfPrefix(w, t, ' ');
    assert s[..|w|] == w;
    assert s[|w|..] == t;
  }

  // ---------------------------------------------------------------------
  // A format made of `%s` / `%-Ns` verbs separated by single blanks.

  /** One verb of such a format: the text it prints and its minimum width (0 for a plain `%s`). */
  datatype Column = Column(text: string, width: nat)

  /** What `fmt.Sprintf` prints for the format, without the final newline. */
  function JoinColumns(cs: seq<Column>): string
  {
    if |cs| == 0 then ""
    else if |cs| == 1 then Field(cs[0])
    else Field(cs[0]) + " " + JoinColumns(cs[1..])
  }

  /** The padded field verb `c` prints. */
  function Field(c: Column): string
  {
    PadRight(c.text, c.width)
  }

  /** Where column `i` starts: every earlier padded field plus its separating blank. */
  function ColumnStart(cs: seq<Column>, i: nat): nat
    requires i < |cs|
  {
    if i == 0 then 0 else |Field(cs[0])| + 1 + ColumnStart(cs[1..], i - 1)
  }

  /** Each column starts one blank after the end of the previous padded field. */
  lemma {:induction false} ColumnStartNext(cs: seq<Column>, i: nat)
    requires i + 1 < |cs|
    ensures ColumnStart(cs, i + 1) == ColumnStart(cs, i) + |Field(cs[i])| + 1
  {
    if i > 0 {
      ColumnStartNext(cs[1..], i - 1);
    }
  }

  /**
   * Column `i` of the line is the padded field of verb `i`, found at
   * `ColumnStart(cs, i)` and followed by a blank unless it is the last one.
   */
  lemma {:induction false} ColumnAt(cs: seq<Column>, i: nat)
    requires i < |cs|
    ensures ColumnStart(cs, i) + |Field(cs[i])| <= |JoinColumns(cs)|
    ensures JoinColumns(cs)[ColumnStart(cs, i)..ColumnStart(cs, i) + |Field(cs[i])|] == Field(cs[i])
    ensures i + 1 < |cs| ==> ColumnStart(cs, i) + |Field(cs[i])| < |JoinColumns(cs)|
    ensures i + 1 < |cs| ==> JoinColumns(cs)[ColumnStart(cs, i) + |Field(cs[i])|] == ' '
    ensures i + 1 == |cs| ==> ColumnStart(cs, i) + |Field(cs[i])| == |JoinColumns(cs)|
    decreases |cs|, 1
  {
    if |cs| == 1 {
      assert JoinColumns(cs) == Field(cs[0]);
    } else if i == 0 {
      ColumnAtFirst(cs);
    } else {
      ColumnAtLater(cs, i);
    }
  }

  /** The first of several columns: its field, then a blank. */
  lemma ColumnAtFirst(cs: seq<Column>)
    requires 1 < |cs|
    ensures |Field(cs[0])| < |JoinColumns(cs)|
    ensures JoinColumns(cs)[..|Field(cs[0])|] == Field(cs[0])
    ensures JoinColumns(cs)[|Field(cs[0])|] == ' '
  {
    var p0 := Field(cs[0]);
    assert JoinColumns(cs) == p0 + " " + JoinColumns(cs[1..]);
  }

  /** A later column is where it is in the line after the first column. */
  lemma {:induction false} ColumnAtLater(cs: seq<Column>, i: nat)
    requires 0 < i < |cs|
    ensures ColumnStart(cs, i) + |Field(cs[i])| <= |JoinColumns(cs)|
    ensures JoinColumns(cs)[ColumnStart(cs, i)..ColumnStart(cs, i) + |Field(cs[i])|] == Field(cs[i])
    ensures i + 1 < |cs| ==> ColumnStart(cs, i) + |Field(cs[i])| < |JoinColumns(cs)|
    ensures i + 1 < |cs| ==> JoinColumns(cs)[ColumnStart(cs, i) + |Field(cs[i])|] == ' '
    ensures i + 1 == |cs| ==> ColumnStart(cs, i) + |Field(cs[i])| == |JoinColumns(cs)|
    decreases |cs|, 0
  {
    var q, tail := Field(cs[0]) + " ", cs[1..];
    JoinColumnsCons(cs);
    assert tail[i - 1] == cs[i];
    ColumnAt(tail, i - 1);
    PlaceBehind(q, JoinColumns(tail), ColumnStart(tail, i - 1), Field(cs[i]), i + 1 == |cs|);
  }

  /** Several columns: the first padded field, a blank, then the rest of the line. */
  lemma JoinColumnsCons(cs: seq<Column>)
    requires 1 < |cs|
    ensures JoinColumns(cs) == (Field(cs[0]) + " ") + JoinColumns(cs[1..])
  {
  }

  /** The line from column `k` on: that padded field, a blank, then the columns after it. */
  lemma JoinColumnsAt(cs: seq<Column>, k: nat)
    requires k + 1 < |cs|
    ensures JoinColumns(cs[k..]) == Field(cs[k]) + " " + JoinColumns(cs[k + 1..])
  {
    assert cs[k..][1..] == cs[k + 1..];
  }

  /**
   * A field found at `start` in `rest`, followed by a blank or by the end,
   * is found `|q|` further on in `q + rest`, with the same follower.
   */
  lemma PlaceBehind(q: string, rest: string, start: nat, p: string, last: bool)
    requires start + |p| <= |rest| && rest[start..start + |p|] == p
    requires !last ==> start + |p| < |rest| && rest[start + |p|] == ' '
    requires last ==> start + |p| == |rest|
    ensures |q| + start + |p| <= |q + rest| && (q + rest)[|q| + start..|q| + start + |p|] == p
    ensures !last ==> |q| + start + |p| < |q + rest| && (q + rest)[|q| + start + |p|] == ' '
    ensures last ==> |q| + start + |p| == |q + rest|
  {
    ShiftSlice(q, rest, start, start + |p|);
  }

  /** Slicing behind a prefix is slicing the rest. */
  lemma ShiftSlice(q: string, rest: string, lo: nat, hi: nat)
    requires lo <= hi <= |rest|
    ensures (q + rest)[|q| + lo..|q| + hi] == rest[lo..hi]
    ensures hi < |rest| ==> (q + rest)[|q| + hi] == rest[hi]
  {
  }

  /** The texts of the columns that print something, in order. */
  function PrintedTexts(cs: seq<Column>): seq<string>
  {
    if |cs| == 0 then []
    else (if cs[0].text == "" then [] else [cs[0].text]) + PrintedTexts(cs[1..])
  }

  /**
   * Reading the line back word by word gives the non-empty column texts,
   * provided none of them holds a blank.
   */
  lemma {:induction false} WordsOfColumns(cs: seq<Column>)
    requires forall i :: 0 <= i < |cs| ==> ' ' !in cs[i].text
    ensures Words(JoinColumns(cs)) == PrintedTexts(cs)
  {
    if |cs| > 0 {
      var t := cs[0].text;
      var p := Field(cs[0]);
      var k := |p| - |t|;
      PadRightIsTextThenBlanks(t, cs[0].width);
      if |cs| == 1 {
        assert JoinColumns(cs) == t + Spaces(k);
        WordsSkipBlanks(k, "");
        assert Spaces(k) + "" == Spaces(k);
        if t != "" {
          WordsOfWord(t, Spaces(k));
        }
        assert PrintedTexts(cs) == (if t == "" then [] else [t]);
      } else {
        var rest := JoinColumns(cs[1..]);
        assert Spaces(k) + " " == Spaces(k + 1);
        assert JoinColumns(cs) == t + (Spaces(k + 1) + rest);
        WordsSkipBlanks(k + 1, rest);
        WordsOfColumns(cs[1..]);
        if t != "" {
          WordsOfWord(t, Spaces(k + 1) + rest);
        }
      }
    }
  }
}
