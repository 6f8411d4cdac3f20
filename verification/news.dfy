/**
 * `NewsReceiver`: the downloaded news text is split into lines, line 1 is
 * the title and the lines from 2 on form the body; the news is shown, and
 * remembered in the player preferences under its title, only when the
 * preferences do not already hold that very body under that title.
 */
module News {
  import opened Wrappers

  predicate IsBreak(c: char)
  {
    c == '\r' || c == '\n'
  }

  /** A line: text without a line break. */
  predicate IsLine(s: string)
  {
    forall i :: 0 <= i < |s| ==> !IsBreak(s[i])
  }

  /** The position of the first line break, if any. */
  function FirstBreak(s: string): (r: Option<nat>)
    ensures r.Some? ==> r.value < |s| && IsBreak(s[r.value]) && IsLine(s[..r.value])
    ensures r.None? ==> IsLine(s)
  {
    if s == [] then None
    else if IsBreak(s[0]) then Some(0)
    else match FirstBreak(s[1..])
      case None => None
      case Some(i) => assert s[..i + 1] == [s[0]] + s[1..][..i]; Some(i + 1)
  }

  /** The length of the separator at a break: "\r\n" is one separator, as it is tried first. */
  function BreakLength(s: string, i: nat): nat
    requires i < |s|
  {
    if s[i] == '\r' && i + 1 < |s| && s[i + 1] == '\n' then 2 else 1
  }

  /**
   * `Split(new[] {"\r\n", "\r", "\n"}, StringSplitOptions.None)`: the text
   * cut at every separator, empty entries kept, so a text with n separators
   * gives n + 1 lines.
   */
  function Lines(s: string): (r: seq<string>)
    ensures |r| > 0
    ensures forall i :: 0 <= i < |r| ==> IsLine(r[i])
    decreases |s|
  {
    match FirstBreak(s)
    case None => [s]
    case Some(k) => [s[..k]] + Lines(s[k + BreakLength(s, k)..])
  }

  /** Lines joined by one separator. */
  function Join(lines: seq<string>, sep: string): string
    requires |lines| > 0
  {
    if |lines| == 1 then lines[0] else lines[0] + sep + Join(lines[1..], sep)
  }

  /** A join of lines starts with its first line's first character, or with the separator after an empty first line. */
  lemma JoinFirst(lines: seq<string>, sep: string)
    requires |lines| > 0 && |Join(lines, sep)| > 0
    ensures |lines[0]| > 0 ==> Join(lines, sep)[0] == lines[0][0]
    ensures |lines[0]| == 0 ==> |lines| > 1 && |sep| > 0 ==> Join(lines, sep)[0] == sep[0]
  {
    if |lines| > 1 {
      assert Join(lines, sep) == lines[0] + (sep + Join(lines[1..], sep));
    }
  }

  /** A break preceded by a line is the first break. */
  lemma FirstBreakAt(s: string, k: nat)
    requires k < |s| && IsLine(s[..k]) && IsBreak(s[k])
    ensures FirstBreak(s) == Some(k)
  {
    forall j | 0 <= j < k ensures !IsBreak(s[j]) {
      assert s[..k][j] == s[j];
    }
  }

  /** A join of several lines is the first line, the separator and the join of the rest. */
  lemma JoinSplit(lines: seq<string>, sep: string)
    requires |lines| > 1 && |sep| > 0
    ensures var s := Join(lines, sep); var k := |lines[0]|;
      && k < |s| && s[..k] == lines[0] && s[k] == sep[0]
      && s[k + |sep|..] == Join(lines[1..], sep)
      && (k + 1 < |s| ==> s[k + 1] == (sep + Join(lines[1..], sep))[1])
  {
    var s := Join(lines, sep);
    assert s == lines[0] + (sep + Join(lines[1..], sep));
  }

  /**
   * In a join of several lines the first separator sits right after the
   * first line, is read back as one separator, and is followed by the join
   * of the other lines.
   */
  lemma JoinHeadStep(lines: seq<string>, sep: string)
    requires |lines| > 1 && IsLine(lines[0]) && IsLine(lines[1])
    requires sep == "\r\n" || sep == "\r" || sep == "\n"
    ensures var s := Join(lines, sep);
      && |lines[0]| < |s| && s[..|lines[0]|] == lines[0]
      && FirstBreak(s) == Some(|lines[0]|)
      && BreakLength(s, |lines[0]|) == |sep|
      && s[|lines[0]| + |sep|..] == Join(lines[1..], sep)
  {
    var s := Join(lines, sep);
    var k := |lines[0]|;
    JoinSplit(lines, sep);
    FirstBreakAt(s, k);
    if sep == "\r" && k + 1 < |s| {
      var rest := Join(lines[1..], sep);
      assert s[k + 1] == rest[0];
      JoinFirst(lines[1..], sep);
    }
  }

  /** Splitting inverts joining with any one of the three separators. */
  lemma {:induction false} LinesJoin(lines: seq<string>, sep: string)
    requires |lines| > 0 && forall i :: 0 <= i < |lines| ==> IsLine(lines[i])
    requires sep == "\r\n" || sep == "\r" || sep == "\n"
    ensures Lines(Join(lines, sep)) == lines
    decreases |lines|
  {
    var s := Join(lines, sep);
    if |lines| == 1 {
      assert FirstBreak(s) == None;
    } else {
      LinesJoinStep(lines, sep);
      LinesJoin(lines[1..], sep);
      assert lines == [lines[0]] + lines[1..];
    }
  }

  /** Splitting a join of several lines yields the first line, then the split of the join of the rest. */
  lemma LinesJoinStep(lines: seq<string>, sep: string)
    requires |lines| > 1 && IsLine(lines[0]) && IsLine(lines[1])
    requires sep == "\r\n" || sep == "\r" || sep == "\n"
    ensures Lines(Join(lines, sep)) == [lines[0]] + Lines(Join(lines[1..], sep))
  {
    JoinHeadStep(lines, sep);
  }

  /** The title and body a download produced. */
  datatype Article = Article(title: string, body: string)

  /** Reading `split[1]` of a one-line text. */
  datatype Error = IndexOutOfRange

  /** The body: every given line followed by the platform line terminator. */
  function Body(rows: seq<string>, newline: string): (r: string)
    ensures |r| == |newline| * |rows| + Total(rows)
  {
    if rows == [] then "" else rows[0] + newline + Body(rows[1..], newline)
  }

  function Total(rows: seq<string>): nat
  {
    if rows == [] then 0 else |rows[0]| + Total(rows[1..])
  }

  /**
   * `Extract`: line 0 is discarded, line 1 is the title and the lines from 2
   * on make the body; a text of one line throws before anything is stored.
   * `newline` is `Environment.NewLine`.
   */
  function Extract(text: string, newline: string): (r: Result<Article, Error>)
    ensures r.Failure? <==> |Lines(text)| < 2
    ensures r.Success? ==> r.value.title == Lines(text)[1] && IsLine(r.value.title)
    ensures r.Success? ==> r.value.body == Body(Lines(text)[2..], newline)
  {
    var split := Lines(text);
    if |split| < 2 then Failure(IndexOutOfRange)
    else Success(Article(split[1], Body(split[2..], newline)))
  }

  /**
   * A news file laid out as a header line, a title line and body lines
   * reads back as that title and those body lines.
   */
  lemma ExtractComposed(header: string, title: string, rows: seq<string>, sep: string, newline: string)
    requires IsLine(header) && IsLine(title) && forall i :: 0 <= i < |rows| ==> IsLine(rows[i])
    requires sep == "\r\n" || sep == "\r" || sep == "\n"
    ensures Extract(Join([header, title] + rows, sep), newline) == Success(Article(title, Body(rows, newline)))
  {
    var lines := [header, title] + rows;
    LinesJoin(lines, sep);
    assert lines[2..] == rows;
  }

  /** The player preferences: string keys to string values. */
  type Prefs = map<string, string>

  /** `NewNews`: false exactly when the title is stored with this very body. */
  predicate NewNews(prefs: Prefs, a: Article)
  {
    !(a.title in prefs && prefs[a.title] == a.body)
  }

  /** `ShowNews`: new news is shown and stored under its title; old news changes nothing. */
  function ShowNews(prefs: Prefs, a: Article): (r: Prefs)
    ensures !NewNews(r, a)
    ensures !NewNews(prefs, a) ==> r == prefs
    ensures forall k :: k != a.title ==> (k in r <==> k in prefs) && (k in r ==> r[k] == prefs[k])
  {
    if !NewNews(prefs, a) then prefs else prefs[a.title := a.body]
  }

  /** The same news is shown once: a second showing changes nothing. */
  lemma ShowNewsOnce(prefs: Prefs, a: Article)
    ensures ShowNews(ShowNews(prefs, a), a) == ShowNews(prefs, a)
  {
  }

  /**
   * `Download` after the request: extract, then show; a text that throws
   * leaves the preferences alone, and any other text leaves its body stored
   * under its title, whether or not the news was new, with every other key
   * unchanged.
   */
  function Receive(prefs: Prefs, text: string, newline: string): (r: Prefs)
    ensures |Lines(text)| < 2 ==> r == prefs
    ensures |Lines(text)| >= 2 ==> r == prefs[Lines(text)[1] := Body(Lines(text)[2..], newline)]
  {
    match Extract(text, newline)
    case Failure(_) => prefs
    case Success(a) =>
      assert !NewNews(prefs, a) ==> prefs == prefs[a.title := a.body];
      ShowNews(prefs, a)
  }

  /** A news file of header, title and body lines leaves exactly that body stored under that title. */
  lemma ReceiveComposed(prefs: Prefs, header: string, title: string, rows: seq<string>, sep: string, newline: string)
    requires IsLine(header) && IsLine(title) && forall i :: 0 <= i < |rows| ==> IsLine(rows[i])
    requires sep == "\r\n" || sep == "\r" || sep == "\n"
    ensures Receive(prefs, Join([header, title] + rows, sep), newline) == prefs[title := Body(rows, newline)]
  {
    ExtractComposed(header, title, rows, sep, newline);
  }

  /** Receiving the same text again changes nothing. */
  lemma ReceiveOnce(prefs: Prefs, text: string, newline: string)
    ensures Receive(Receive(prefs, text, newline), text, newline) == Receive(prefs, text, newline)
  {
  }
}
