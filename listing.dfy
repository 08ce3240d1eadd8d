/** Extracting the JSON payload from a listing page (supynote/supernote.py:46-68, 269-291). */
module ListingParser {
  import opened Wrappers
  import opened Text

  /** What the script search looks for. */
  const ScriptMarker := "const json"
  /** What the payload extraction splits on. */
  const PayloadMarker := "const json = "
  const Quote := "'"

  /** What a listing request gives back: nothing when the request raised (connection
      error, timeout, error status), otherwise the texts of the page's script blocks in
      document order. */
  datatype Response = Unreachable | Page(scripts: seq<string>)

  /** The script search: the first script whose text contains `const json`. */
  function FindScript(scripts: seq<string>): (r: Option<string>)
    ensures r.None? <==> forall i :: 0 <= i < |scripts| ==> !Contains(scripts[i], ScriptMarker)
    ensures r.Some? ==> exists i :: (0 <= i < |scripts| && scripts[i] == r.value
      && Contains(r.value, ScriptMarker)
      && forall j :: 0 <= j < i ==> !Contains(scripts[j], ScriptMarker))
  {
    if scripts == [] then None
    else if Contains(scripts[0], ScriptMarker) then Some(scripts[0])
    else
      var r := FindScript(scripts[1..]);
      if r.Some? then
        var i :| 0 <= i < |scripts[1..]| && scripts[1..][i] == r.value
          && Contains(r.value, ScriptMarker)
          && forall j :: 0 <= j < i ==> !Contains(scripts[1..][j], ScriptMarker);
        assert scripts[i + 1] == r.value;
        assert forall j :: 0 <= j < i + 1 ==> !Contains(scripts[j], ScriptMarker) by {
          forall j | 0 <= j < i + 1 ensures !Contains(scripts[j], ScriptMarker) {
            if j > 0 { assert scripts[j] == scripts[1..][j - 1]; }
          }
        }
        r
      else
        r
  }

  /** `script.split("const json = ")[1].strip().split("'")[1]`: the text between the first
      and the second quote of the trimmed remainder after the marker; `None` for the
      IndexError either indexing raises. */
  function PayloadText(script: string): (r: Option<string>)
    ensures r.None? <==> (!Contains(script, PayloadMarker)
      || !Contains(Strip(SplitSecond(script, PayloadMarker).value), Quote))
    ensures r.Some? ==> !Contains(r.value, Quote)
  {
    match SplitSecond(script, PayloadMarker)
    case None => None
    case Some(rest) =>
      var r := SplitSecond(Strip(rest), Quote);
      if r.Some? then
        PieceIsPiece(Strip(rest), Quote, IndexOf(Strip(rest), Quote, 0).value + 1);
        r
      else r
  }

  /** `list_files` from the response on: "no data" (None) for an unreachable device, a
      page without the script, a script without the marker or the quotes, and a payload the
      JSON parser rejects; otherwise what the parser makes of the payload. */
  function ListFiles<P>(response: Response, parse: string -> Option<P>): (r: Option<P>)
    ensures r.Some? <==>
      && response.Page?
      && FindScript(response.scripts).Some?
      && PayloadText(FindScript(response.scripts).value).Some?
      && parse(PayloadText(FindScript(response.scripts).value).value).Some?
    ensures r.Some? ==> r == parse(PayloadText(FindScript(response.scripts).value).value)
  {
    match response
    case Unreachable => None
    case Page(scripts) =>
      match FindScript(scripts)
      case None => None
      case Some(script) =>
        match PayloadText(script)
        case None => None
        case Some(text) => parse(text)
  }

  predicate AllSpace(ws: string)
  {
    forall i :: 0 <= i < |ws| ==> IsSpace(ws[i])
  }

  /** The marker's first character occurs nowhere else in it. */
  lemma MarkerShape()
    ensures |PayloadMarker| == 13 && PayloadMarker[0] == 'c' && !IsSpace('c')
    ensures forall k :: 0 < k < |PayloadMarker| ==> PayloadMarker[k] != 'c'
    ensures forall k :: 0 <= k < |PayloadMarker| ==> PayloadMarker[k] != '\''
  {
  }

  /** When `before` does not contain the marker, its first occurrence is the one right
      after `before`. */
  lemma FirstMarkerAfter(before: string, x: string)
    requires !Contains(before, PayloadMarker)
    ensures IndexOf(before + PayloadMarker + x, PayloadMarker, 0) == Some(|before|)
  {
    var M := PayloadMarker;
    var s := before + M + x;
    var b, m := |before|, |M|;
    MarkerShape();
    ContainsSpec(before, M);
    assert s[b..b + m] == M;
    forall p: nat | p < b ensures !OccursAt(s, M, p) {
      if p + m <= b {
        assert s[p..p + m] == before[p..p + m];
        assert !OccursAt(before, M, p);
      } else if p + m <= |s| {
        assert s[p..p + m][b - p] == s[b] == 'c';
        assert M[b - p] != 'c';
      }
    }
    IndexOfIs(s, M, 0, b);
  }

  /** Nothing in the whitespace, the quotes or a payload free of the marker starts the
      marker, up to and including the closing quote. */
  lemma MarkerNotInQuoted(ws: string, json: string, after: string)
    requires AllSpace(ws)
    requires !Contains(json, PayloadMarker)
    ensures forall q: nat :: q <= |ws| + 1 + |json| ==>
      !OccursAt(ws + Quote + json + Quote + after, PayloadMarker, q)
  {
    var M := PayloadMarker;
    var m := |M|;
    var x := ws + Quote + json + Quote + after;
    var open := |ws|;
    var close := open + 1 + |json|;
    MarkerShape();
    ContainsSpec(json, M);
    assert x[open] == '\'' && x[close] == '\'';
    assert x[open + 1..close] == json;
    forall q: nat | q <= close ensures !OccursAt(x, M, q) {
      if q + m <= |x| {
        if q < open {
          assert x[q..q + m][0] == x[q] == ws[q];
          assert IsSpace(ws[q]);
        } else if q == open || q == close {
          assert x[q..q + m][0] == '\'';
        } else if q + m <= close {
          assert x[q..q + m] == json[q - open - 1..q - open - 1 + m];
          assert !OccursAt(json, M, q - open - 1);
        } else {
          assert x[q..q + m][close - q] == x[close] == '\'';
          assert M[close - q] != '\'';
        }
      }
    }
  }

  /** On a page written the way the device writes it, the first split keeps the whitespace,
      the quoted payload and possibly more. */
  lemma FirstSplitKeepsQuoted(before: string, ws: string, json: string, after: string)
    requires !Contains(before, PayloadMarker)
    requires AllSpace(ws)
    requires !Contains(json, PayloadMarker)
    ensures exists after' ::
      SplitSecond((before + PayloadMarker) + (ws + Quote + json + Quote + after), PayloadMarker)
      == Some(ws + Quote + json + Quote + after')
  {
    var M := PayloadMarker;
    var quoted := ws + Quote + json + Quote;
    var script := (before + M) + (quoted + after);
    FirstMarkerAfter(before, quoted + after);
    MarkerNotInQuoted(ws, json, after);
    PieceAfterPrefix(before + M, quoted, after, M);
    var tail :| Piece(script, M, |before + M|) == quoted + tail;
    assert SplitSecond(script, M) == Some(quoted + tail);
  }

  /** The second split of the stripped remainder picks out the quoted payload. */
  lemma SecondSplitTakesQuoted(ws: string, json: string, after': string)
    requires AllSpace(ws)
    requires !Contains(json, Quote)
    ensures SplitSecond(Strip(ws + Quote + json + Quote + after'), Quote) == Some(json)
  {
    assert ws + Quote + json + Quote + after' == ws + (['\''] + json + ['\''] + after');
    StripBeforeQuote(ws, '\'', json, after');
    SplitQuoted('\'', json, TrimRight(after'));
  }

  /** A page written the way the device writes it gives back exactly the JSON text:
      `before`, the marker, some whitespace, then the payload in single quotes. */
  lemma PayloadRoundTrip(before: string, ws: string, json: string, after: string)
    requires !Contains(before, PayloadMarker)
    requires AllSpace(ws)
    requires !Contains(json, Quote) && !Contains(json, PayloadMarker)
    ensures PayloadText(before + PayloadMarker + ws + Quote + json + Quote + after) == Some(json)
  {
    Regroup(before, PayloadMarker, ws, Quote, json, Quote, after);
    FirstSplitKeepsQuoted(before, ws, json, after);
    var after' :| SplitSecond((before + PayloadMarker) + (ws + Quote + json + Quote + after),
      PayloadMarker) == Some(ws + Quote + json + Quote + after');
    SecondSplitTakesQuoted(ws, json, after');
  }

  lemma Regroup<T>(a: seq<T>, b: seq<T>, c: seq<T>, d: seq<T>, e: seq<T>, f: seq<T>, g: seq<T>)
    ensures a + b + c + d + e + f + g == (a + b) + (c + d + e + f + g)
  {
  }
}
