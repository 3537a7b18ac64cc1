/** The strings one "Latest Jobs" chip shows for a job: the title with its
    whitespace collapsed and trimmed, cut to 32 characters with an ellipsis,
    company and location with defaults, and the salary unless it is empty or
    the text "NaN". */
module JobSummary {
  import opened Values

  /** JavaScript's WhiteSpace and LineTerminator characters: what `\s` matches
      and `String.prototype.trim` removes. */
  predicate IsSpace(c: char) {
    || c == '\t' || c == '\n' || c == '\U{B}' || c == '\U{C}' || c == '\r' || c == ' '
    || c == '\U{A0}' || c == '\U{1680}' || ('\U{2000}' <= c <= '\U{200A}')
    || c == '\U{2028}' || c == '\U{2029}' || c == '\U{202F}' || c == '\U{205F}'
    || c == '\U{3000}' || c == '\U{FEFF}'
  }

  /** Leading whitespace removed. */
  function TrimStart(s: string): (r: string)
    ensures |r| <= |s| && r == s[|s| - |r|..]
    ensures r == [] || !IsSpace(r[0])
  {
    if |s| > 0 && IsSpace(s[0]) then TrimStart(s[1..]) else s
  }

  /** What `TrimStart` removes is whitespace. */
  lemma {:induction false} TrimStartCut(s: string)
    ensures forall i :: 0 <= i < |s| - |TrimStart(s)| ==> IsSpace(s[i])
  {
    if |s| > 0 && IsSpace(s[0]) {
      TrimStartCut(s[1..]);
      assert forall i :: 1 <= i < |s| ==> s[i] == s[1..][i - 1];
    }
  }

  /** Trailing whitespace removed. */
  function TrimEnd(s: string): (r: string)
    ensures |r| <= |s| && r == s[..|r|]
    ensures r == [] || !IsSpace(r[|r| - 1])
  {
    if |s| > 0 && IsSpace(s[|s| - 1]) then TrimEnd(s[..|s| - 1]) else s
  }

  /** What `TrimEnd` removes is whitespace. */
  lemma {:induction false} TrimEndCut(s: string)
    ensures forall i :: |TrimEnd(s)| <= i < |s| ==> IsSpace(s[i])
  {
    if |s| > 0 && IsSpace(s[|s| - 1]) {
      TrimEndCut(s[..|s| - 1]);
    }
  }

  /** `s.trim()` */
  function Trim(s: string): (r: string)
    ensures r == [] || (!IsSpace(r[0]) && !IsSpace(r[|r| - 1]))
  {
    var t := TrimStart(s);
    var r := TrimEnd(t);
    assert r != [] ==> r[0] == t[0];
    r
  }

  /** `trim()` keeps the middle of `s`: what it removes at either end is
      whitespace, and what it returns is the rest, unchanged. */
  lemma TrimKeepsMiddle(s: string)
    ensures exists a, b ::
      && 0 <= a <= b <= |s| && Trim(s) == s[a..b]
      && forall i :: 0 <= i < |s| && (i < a || b <= i) ==> IsSpace(s[i])
  {
    TrimStartCut(s);
    TrimEndCut(TrimStart(s));
    TrimCut(s, TrimStart(s), Trim(s));
  }

  /** Where `Trim` cuts: `t` is `s` from `|s| - |t|` on, `r` a prefix of `t`,
      and everything cut off is whitespace. */
  lemma TrimCut(s: string, t: string, r: string)
    requires |t| <= |s| && t == s[|s| - |t|..] && forall i :: 0 <= i < |s| - |t| ==> IsSpace(s[i])
    requires |r| <= |t| && r == t[..|r|] && forall i :: |r| <= i < |t| ==> IsSpace(t[i])
    ensures exists a, b ::
      && 0 <= a <= b <= |s| && r == s[a..b]
      && forall i :: 0 <= i < |s| && (i < a || b <= i) ==> IsSpace(s[i])
  {
    var a := |s| - |t|;
    var b := a + |r|;
    assert r == s[a..b];
    forall i | 0 <= i < |s| && (i < a || b <= i) ensures IsSpace(s[i]) {
      if i >= b {
        assert s[i] == t[i - a];
      }
    }
  }

  /** `s.replace(/\s+/g, ' ')`: every maximal run of whitespace becomes one space. */
  function Collapse(s: string): string {
    if |s| == 0 then ""
    else if IsSpace(s[0]) then " " + Collapse(TrimStart(s[1..]))
    else [s[0]] + Collapse(s[1..])
  }

  /** The displayed title before truncation. */
  function Normalize(s: string): string {
    Trim(Collapse(s))
  }

  /** Whitespace only as single `' '` characters, never two in a row. */
  ghost predicate SingleSpaced(s: string) {
    && (forall i :: 0 <= i < |s| && IsSpace(s[i]) ==> s[i] == ' ')
    && (forall i :: 0 <= i < |s| - 1 ==> !(IsSpace(s[i]) && IsSpace(s[i + 1])))
  }

  /** The characters of `s` that are not whitespace, in order. */
  function Visible(s: string): string {
    if |s| == 0 then "" else (if IsSpace(s[0]) then "" else [s[0]]) + Visible(s[1..])
  }

  lemma {:induction false} VisibleAppend(a: string, b: string)
    ensures Visible(a + b) == Visible(a) + Visible(b)
  {
    if |a| == 0 {
      assert a + b == b;
    } else {
      var ab := a + b;
      assert ab[0] == a[0] && ab[1..] == a[1..] + b;
      VisibleAppend(a[1..], b);
      var head := if IsSpace(a[0]) then "" else [a[0]];
      assert Visible(ab) == head + (Visible(a[1..]) + Visible(b));
    }
  }

  lemma {:induction false} VisibleOfSpaces(s: string)
    requires forall i :: 0 <= i < |s| ==> IsSpace(s[i])
    ensures Visible(s) == ""
  {
    if |s| > 0 {
      VisibleOfSpaces(s[1..]);
    }
  }

  /** Collapsing keeps the visible characters. */
  lemma {:induction false} CollapseVisible(s: string)
    ensures Visible(Collapse(s)) == Visible(s)
    decreases |s|
  {
    if |s| > 0 {
      var x, tail := s[0], s[1..];
      assert s == [x] + tail;
      VisibleAppend([x], tail);
      if IsSpace(x) {
        var t := TrimStart(tail);
        TrimStartCut(tail);
        var spaces := tail[..|tail| - |t|];
        assert tail == spaces + t;
        VisibleAppend(spaces, t);
        VisibleOfSpaces(spaces);
        CollapseVisible(t);
        VisibleAppend(" ", Collapse(t));
        calc {
          Visible(Collapse(s));
          Visible(" " + Collapse(t));
          Visible(" ") + Visible(Collapse(t));
          Visible(t);
          Visible(spaces) + Visible(t);
          Visible([x]) + Visible(tail);
        }
      } else {
        CollapseVisible(tail);
        VisibleAppend([x], Collapse(tail));
        assert Collapse(s) == [x] + Collapse(tail);
      }
    }
  }

  /** Collapsing a non-empty string gives a non-empty string that starts with
      whitespace exactly when the input does. */
  lemma CollapseHead(s: string)
    requires |s| > 0
    ensures |Collapse(s)| > 0 && (IsSpace(Collapse(s)[0]) <==> IsSpace(s[0]))
  {
    if IsSpace(s[0]) {
      assert Collapse(s) == " " + Collapse(TrimStart(s[1..]));
    } else {
      assert Collapse(s) == [s[0]] + Collapse(s[1..]);
    }
  }

  /** Putting a character in front of a single-spaced string keeps it
      single-spaced, unless that makes two whitespace characters meet. */
  lemma ConsSingleSpaced(x: char, rest: string)
    requires SingleSpaced(rest)
    requires IsSpace(x) ==> x == ' ' && (rest == [] || !IsSpace(rest[0]))
    ensures SingleSpaced([x] + rest)
  {
    var c := [x] + rest;
    forall i | 0 <= i < |c| && IsSpace(c[i]) ensures c[i] == ' ' {
      if i > 0 {
        assert c[i] == rest[i - 1];
      }
    }
    forall i | 0 <= i < |c| - 1 ensures !(IsSpace(c[i]) && IsSpace(c[i + 1])) {
      if i > 0 {
        assert c[i] == rest[i - 1] && c[i + 1] == rest[i];
      }
    }
  }

  /** Collapsing leaves only single spaces. */
  lemma {:induction false} CollapseSpacing(s: string)
    ensures SingleSpaced(Collapse(s))
    decreases |s|
  {
    if |s| > 0 {
      if IsSpace(s[0]) {
        var t := TrimStart(s[1..]);
        CollapseSpacing(t);
        if |t| > 0 {
          CollapseHead(t);
        }
        ConsSingleSpaced(' ', Collapse(t));
        assert Collapse(s) == [' '] + Collapse(t);
      } else {
        CollapseSpacing(s[1..]);
        ConsSingleSpaced(s[0], Collapse(s[1..]));
        assert Collapse(s) == [s[0]] + Collapse(s[1..]);
      }
    }
  }

  lemma CollapseShape(s: string)
    ensures Visible(Collapse(s)) == Visible(s)
    ensures SingleSpaced(Collapse(s))
  {
    CollapseVisible(s);
    CollapseSpacing(s);
  }

  /** A single-spaced string is left alone by collapsing. */
  lemma {:induction false} CollapseFixed(s: string)
    requires SingleSpaced(s)
    ensures Collapse(s) == s
  {
    if |s| > 0 {
      assert SingleSpaced(s[1..]);
      CollapseFixed(s[1..]);
      if IsSpace(s[0]) {
        assert |s| > 1 ==> !IsSpace(s[1..][0]);
        assert TrimStart(s[1..]) == s[1..];
      }
    }
  }

  /** A slice of a single-spaced string is single-spaced. */
  lemma SliceSingleSpaced(s: string, i: nat, j: nat)
    requires SingleSpaced(s) && i <= j <= |s|
    ensures SingleSpaced(s[i..j])
  {
    var t := s[i..j];
    forall k | 0 <= k < |t| - 1 ensures !(IsSpace(t[k]) && IsSpace(t[k + 1])) {
      assert t[k] == s[i + k] && t[k + 1] == s[i + k + 1];
    }
  }

  lemma {:induction false} TrimStartVisible(s: string)
    ensures Visible(TrimStart(s)) == Visible(s)
  {
    if |s| > 0 && IsSpace(s[0]) {
      TrimStartVisible(s[1..]);
    }
  }

  lemma {:induction false} TrimEndVisible(s: string)
    ensures Visible(TrimEnd(s)) == Visible(s)
  {
    if |s| > 0 && IsSpace(s[|s| - 1]) {
      TrimEndVisible(s[..|s| - 1]);
      assert s == s[..|s| - 1] + [s[|s| - 1]];
      VisibleAppend(s[..|s| - 1], [s[|s| - 1]]);
    }
  }

  /** Trimming drops only whitespace, so the visible characters stay. */
  lemma TrimVisible(s: string)
    ensures Visible(Trim(s)) == Visible(s)
  {
    TrimStartVisible(s);
    TrimEndVisible(TrimStart(s));
  }

  /** Trimming a single-spaced string keeps it single-spaced. */
  lemma TrimSingleSpaced(s: string)
    requires SingleSpaced(s)
    ensures SingleSpaced(Trim(s))
  {
    var t := TrimStart(s);
    SliceSingleSpaced(s, |s| - |t|, |s|);
    var n := TrimEnd(t);
    SliceSingleSpaced(t, 0, |n|);
  }

  /** The displayed title has no whitespace at either end, no two whitespace
      characters in a row, only `' '` as whitespace, and the same visible
      characters as the raw title. */
  lemma NormalizeShape(s: string)
    ensures var n := Normalize(s);
      && (n == [] || (!IsSpace(n[0]) && !IsSpace(n[|n| - 1])))
      && SingleSpaced(n)
      && Visible(n) == Visible(s)
  {
    CollapseShape(s);
    TrimVisible(Collapse(s));
    TrimSingleSpaced(Collapse(s));
  }

  /** Normalising twice is normalising once. */
  lemma NormalizeIdempotent(s: string)
    ensures Normalize(Normalize(s)) == Normalize(s)
  {
    var n := Normalize(s);
    NormalizeShape(s);
    CollapseFixed(n);
    assert TrimStart(n) == n;
    assert TrimEnd(n) == n;
  }

  // ---------------------------------------------------------------- words

  /** The number of leading characters of `s` that are not whitespace. */
  function WordLen(s: string): (n: nat)
    ensures n <= |s|
    ensures forall i :: 0 <= i < n ==> !IsSpace(s[i])
    ensures n == |s| || IsSpace(s[n])
  {
    if |s| == 0 || IsSpace(s[0]) then 0 else 1 + WordLen(s[1..])
  }

  /** A non-empty run of characters none of which is whitespace. */
  ghost predicate IsWord(w: string) {
    |w| > 0 && forall i :: 0 <= i < |w| ==> !IsSpace(w[i])
  }

  /** The maximal runs of non-whitespace characters of `s`, in order. */
  function Words(s: string): seq<string>
    decreases |s|
  {
    var t := TrimStart(s);
    if |t| == 0 then []
    else
      var n := WordLen(t);
      [t[..n]] + Words(t[n..])
  }

  /** Every element of `ws` is a word. */
  ghost predicate AllWords(ws: seq<string>) {
    forall k :: 0 <= k < |ws| ==> IsWord(ws[k])
  }

  lemma ConsWords(w: string, ws: seq<string>)
    requires IsWord(w) && AllWords(ws)
    ensures AllWords([w] + ws)
  {
    forall k | 0 <= k < 1 + |ws| ensures IsWord(([w] + ws)[k]) {
      if k > 0 {
        assert ([w] + ws)[k] == ws[k - 1];
      }
    }
  }

  /** The first `WordLen` characters of a string that starts visible form a word. */
  lemma LeadingWord(t: string)
    requires |t| > 0 && !IsSpace(t[0])
    ensures IsWord(t[..WordLen(t)])
  {
    var n := WordLen(t);
    assert n > 0;
    assert forall i :: 0 <= i < n ==> t[..n][i] == t[i];
  }

  /** Every element of `Words(s)` is a word. */
  lemma {:induction false} WordsAreWords(s: string)
    ensures AllWords(Words(s))
    decreases |s|
  {
    var t := TrimStart(s);
    if |t| > 0 {
      var n := WordLen(t);
      LeadingWord(t);
      WordsAreWords(t[n..]);
      ConsWords(t[..n], Words(t[n..]));
    }
  }

  /** The words joined by single spaces. */
  function Join(ws: seq<string>): string {
    if |ws| == 0 then ""
    else if |ws| == 1 then ws[0]
    else ws[0] + " " + Join(ws[1..])
  }

  /** Leading whitespace changes nothing that `TrimStart` leaves. */
  lemma {:induction false} TrimStartSpaces(sp: string, x: string)
    requires forall i :: 0 <= i < |sp| ==> IsSpace(sp[i])
    ensures TrimStart(sp + x) == TrimStart(x)
  {
    if |sp| > 0 {
      assert (sp + x)[1..] == sp[1..] + x;
      TrimStartSpaces(sp[1..], x);
    } else {
      assert sp + x == x;
    }
  }

  /** Trailing whitespace changes nothing that `TrimEnd` leaves. */
  lemma {:induction false} TrimEndSpaces(x: string, sp: string)
    requires forall i :: 0 <= i < |sp| ==> IsSpace(sp[i])
    ensures TrimEnd(x + sp) == TrimEnd(x)
  {
    if |sp| > 0 {
      var xs := x + sp;
      assert xs[..|xs| - 1] == x + sp[..|sp| - 1];
      TrimEndSpaces(x, sp[..|sp| - 1]);
    } else {
      assert x + sp == x;
    }
  }

  /** `TrimEnd` only looks at the end: a prefix in front of a string with
      something visible is kept. */
  lemma {:induction false} TrimEndAppend(a: string, b: string)
    requires TrimEnd(b) != []
    ensures TrimEnd(a + b) == a + TrimEnd(b)
    decreases |b|
  {
    var ab := a + b;
    assert ab[|ab| - 1] == b[|b| - 1];
    if IsSpace(b[|b| - 1]) {
      assert ab[..|ab| - 1] == a + b[..|b| - 1];
      TrimEndAppend(a, b[..|b| - 1]);
    }
  }

  /** A word of length `n` in front is copied by `Collapse`. */
  lemma {:induction false} CollapseWord(t: string, n: nat)
    requires n <= |t| && forall i :: 0 <= i < n ==> !IsSpace(t[i])
    ensures Collapse(t) == t[..n] + Collapse(t[n..])
  {
    if n > 0 {
      var u := t[1..];
      CollapseWord(u, n - 1);
      assert Collapse(t) == [t[0]] + Collapse(u);
      assert u[n - 1..] == t[n..];
      assert t[..n] == [t[0]] + u[..n - 1];
      AppendAssoc([t[0]], u[..n - 1], Collapse(t[n..]));
    }
  }

  /** Whitespace alone collapses to at most one space. */
  lemma CollapseOfSpaces(r: string)
    requires forall i :: 0 <= i < |r| ==> IsSpace(r[i])
    ensures Collapse(r) == if |r| == 0 then "" else " "
  {
    if |r| > 0 {
      CollapseLeadingSpace(r);
      TrimStartOfSpaces(r);
    }
  }

  lemma {:induction false} TrimStartOfSpaces(r: string)
    requires forall i :: 0 <= i < |r| ==> IsSpace(r[i])
    ensures TrimStart(r) == []
  {
    if |r| > 0 {
      TrimStartOfSpaces(r[1..]);
    }
  }

  /** A leading whitespace run becomes one space in front of the rest. */
  lemma CollapseLeadingSpace(s: string)
    requires |s| > 0 && IsSpace(s[0])
    ensures Collapse(s) == " " + Collapse(TrimStart(s))
  {
    assert TrimStart(s) == TrimStart(s[1..]);
  }

  /** Leading whitespace does not change the normalised form. */
  lemma NormalizeTrimStart(s: string)
    ensures Normalize(s) == Normalize(TrimStart(s))
  {
    if |s| > 0 && IsSpace(s[0]) {
      CollapseLeadingSpace(s);
      TrimStartSpaceCons(Collapse(TrimStart(s)));
    }
  }

  lemma TrimStartSpaceCons(c: string)
    ensures TrimStart(" " + c) == TrimStart(c)
  {
    assert (" " + c)[1..] == c;
  }

  /** A word of length `n` followed only by whitespace normalises to itself. */
  lemma NormalizeLastWord(t: string, n: nat)
    requires 0 < n <= |t| && forall i :: 0 <= i < n ==> !IsSpace(t[i])
    requires TrimStart(t[n..]) == []
    ensures Normalize(t) == t[..n]
  {
    CollapseWord(t, n);
    var w, r := t[..n], t[n..];
    TrimStartCut(r);
    CollapseOfSpaces(r);
    var c := w + Collapse(r);
    assert c[0] == w[0];
    assert TrimStart(c) == c;
    TrimEndSpaces(w, Collapse(r));
    assert w[n - 1] == t[n - 1];
    assert TrimEnd(w) == w;
  }

  /** A word, a whitespace run and the rest collapse to the word, one space
      and the collapsed rest. */
  lemma CollapseWordThenRest(t: string, n: nat)
    requires n < |t| && forall i :: 0 <= i < n ==> !IsSpace(t[i])
    requires IsSpace(t[n])
    ensures Collapse(t) == (t[..n] + " ") + Collapse(TrimStart(t[n..]))
  {
    CollapseWord(t, n);
    CollapseLeadingSpace(t[n..]);
    AppendAssoc(t[..n], " ", Collapse(TrimStart(t[n..])));
  }

  lemma AppendAssoc(a: string, b: string, c: string)
    ensures a + (b + c) == (a + b) + c
  {
  }

  /** Trimming a string whose two parts each start with a visible character
      trims only the end of the second part. */
  lemma TrimVisibleFront(p: string, c: string)
    requires |p| > 0 && !IsSpace(p[0])
    requires |c| > 0 && !IsSpace(c[0])
    ensures Trim(p + c) == p + Trim(c)
  {
    assert (p + c)[0] == p[0];
    assert TrimStart(p + c) == p + c;
    assert TrimStart(c) == c;
    TrimEndCut(c);
    TrimEndAppend(p, c);
  }

  /** A word of length `n`, a whitespace run and more words: the word, one
      space and the normalised rest. */
  lemma NormalizeWordThenRest(t: string, n: nat)
    requires 0 < n < |t| && forall i :: 0 <= i < n ==> !IsSpace(t[i])
    requires IsSpace(t[n]) && TrimStart(t[n..]) != []
    ensures Normalize(t) == t[..n] + " " + Normalize(TrimStart(t[n..]))
  {
    var t2 := TrimStart(t[n..]);
    CollapseWordThenRest(t, n);
    CollapseHead(t2);
    assert (t[..n] + " ")[0] == t[0];
    TrimVisibleFront(t[..n] + " ", Collapse(t2));
  }

  /** Normalising a title is splitting it into words and joining them with
      single spaces. */
  lemma {:induction false} NormalizeWords(s: string)
    ensures Normalize(s) == Join(Words(s))
    decreases |s|
  {
    NormalizeTrimStart(s);
    var t := TrimStart(s);
    if |t| > 0 {
      var n := WordLen(t);
      var t2 := TrimStart(t[n..]);
      if |t2| == 0 {
        NormalizeLastWord(t, n);
      } else {
        NormalizeWordThenRest(t, n);
        NormalizeWords(t2);
        assert TrimStart(t2) == t2;
        assert Words(t[n..]) == Words(t2);
        var ws := Words(s);
        assert ws == [t[..n]] + Words(t2) && |Words(t2)| > 0;
        assert ws[1..] == Words(t2);
      }
    }
  }


  const TitleLimit: nat := 32

  /** What one chip shows; `title` and `ellipsis` are the two halves of the title span. */
  datatype JobChip = JobChip(title: string, ellipsis: string, company: string, location: string, salary: string)

  /** The defaults need no trimming. */
  lemma DefaultsTrimmed()
    ensures Trim("Unknown") == "Unknown" && Trim("India") == "India"
  {
    assert !IsSpace("Unknown"[0]) && !IsSpace("Unknown"[6]);
    assert TrimStart("Unknown") == "Unknown";
    assert !IsSpace("India"[0]) && !IsSpace("India"[4]);
    assert TrimStart("India") == "India";
  }

  /** `(job.title || 'Untitled').replace(/\s+/g, ' ').trim()` */
  function FullTitle(job: TransportJob): string {
    Normalize(StrOr(job.title, "Untitled"))
  }

  /** `title.slice(0, 32)`: the title itself when it fits, else its first 32 characters. */
  function Shorten(title: string): (r: string)
    ensures r <= title
    ensures |r| == if |title| <= TitleLimit then |title| else TitleLimit
    ensures r == title <==> |title| <= TitleLimit
  {
    if |title| <= TitleLimit then title else title[..TitleLimit]
  }

  /** The chip for one job. */
  function Summary(job: TransportJob): (chip: JobChip)
    ensures chip.title <= FullTitle(job)
    ensures |chip.title| == if |FullTitle(job)| <= TitleLimit then |FullTitle(job)| else TitleLimit
    ensures chip.ellipsis == "…" <==> |FullTitle(job)| > TitleLimit
    ensures chip.ellipsis == "" <==> chip.title == FullTitle(job)
    ensures chip.salary != "" <==> job.salary.Truthy() && job.salary.s != "NaN"
    ensures chip.salary != "" ==> chip.salary == job.salary.s
    ensures !job.company.Truthy() ==> chip.company == "Unknown"
    ensures !job.location.Truthy() ==> chip.location == "India"
    ensures job.company.Truthy() ==> chip.company == Trim(job.company.s)
    ensures job.location.Truthy() ==> chip.location == Trim(job.location.s)
  {
    var title := FullTitle(job);
    DefaultsTrimmed();
    JobChip(
      Shorten(title),
      if |title| > TitleLimit then "…" else "",
      Trim(StrOr(job.company, "Unknown")),
      Trim(StrOr(job.location, "India")),
      if job.salary.Truthy() && job.salary.s != "NaN" then job.salary.s else "")
  }
}
