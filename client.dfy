/**
 * The two helpers of the Streamlit client that read a backend response: the download file
 * name from its `Content-Disposition` header and the file extension from its media type.
 */
module StreamlitClient {
  import opened Wrappers
  import opened Strings
  import Formatter
  import Overleaf
  import Saved

  /** The literal prefix of the pattern `filename="([^"]+)"`. */
  const Marker := "filename=\""

  predicate NotQuote(c: char) { c != '"' }

  /**
   * The length of the captured name when the pattern matches at `i`, else 0. The capture is
   * the maximal run of non-quote characters after the marker, and it must be closed by a quote.
   */
  function CaptureAt(cd: string, i: nat): nat
    requires i <= |cd|
  {
    if i + |Marker| <= |cd| && cd[i..i + |Marker|] == Marker then
      var n := Span(cd, i + |Marker|, NotQuote);
      if n >= 1 && i + |Marker| + n < |cd| then n else 0
    else 0
  }

  /** `re.search`: the leftmost position at or after `i` where the pattern matches. */
  function SearchFrom(cd: string, i: nat): Option<nat>
    requires i <= |cd|
    decreases |cd| - i
  {
    if CaptureAt(cd, i) > 0 then Some(i)
    else if i == |cd| then None
    else SearchFrom(cd, i + 1)
  }

  lemma {:induction false} SearchFromSpec(cd: string, i: nat)
    requires i <= |cd|
    ensures SearchFrom(cd, i).Some? ==>
      var m := SearchFrom(cd, i).value;
      i <= m <= |cd| && CaptureAt(cd, m) > 0 && forall j :: i <= j < m ==> CaptureAt(cd, j) == 0
    ensures SearchFrom(cd, i).None? ==> forall j :: i <= j <= |cd| ==> CaptureAt(cd, j) == 0
    decreases |cd| - i
  {
    if CaptureAt(cd, i) == 0 && i < |cd| {
      SearchFromSpec(cd, i + 1);
    }
  }

  /** The header's value, "" when the response has none. */
  function Disposition(headers: map<string, string>): string {
    if "Content-Disposition" in headers then headers["Content-Disposition"] else ""
  }

  /** `_filename_from_headers`. */
  function FilenameFromHeaders(headers: map<string, string>, fallback: string): string {
    var cd := Disposition(headers);
    match SearchFrom(cd, 0)
    case Some(i) =>
      SearchFromSpec(cd, 0);
      cd[i + |Marker|..i + |Marker| + CaptureAt(cd, i)]
    case None => fallback
  }

  /** The marker, a name and a closing quote start at `i` in `cd`. */
  predicate QuotedAt(cd: string, i: nat, name: string) {
    OccursAt(cd, Marker + name + "\"", i)
  }

  /**
   * The name is the text between the first `filename="` that is followed by a quoted name and
   * that closing quote: non-empty and without a quote. Without such a match, including when
   * the header is missing, the fallback is returned.
   */
  lemma FilenameSpec(headers: map<string, string>, fallback: string)
    ensures var cd, r := Disposition(headers), FilenameFromHeaders(headers, fallback);
      (exists i: nat :: i <= |cd| && QuotedAt(cd, i, r) && r != [] && '"' !in r
                        && forall j :: 0 <= j < i ==> CaptureAt(cd, j) == 0)
      || (r == fallback && forall j :: 0 <= j <= |cd| ==> CaptureAt(cd, j) == 0)
    ensures "Content-Disposition" !in headers ==> FilenameFromHeaders(headers, fallback) == fallback
  {
    var cd := Disposition(headers);
    SearchFromSpec(cd, 0);
    if SearchFrom(cd, 0).Some? {
      var i := SearchFrom(cd, 0).value;
      var r := FilenameFromHeaders(headers, fallback);
      CaptureIsQuoted(cd, i);
      assert r == cd[i + |Marker|..i + |Marker| + CaptureAt(cd, i)];
      assert QuotedAt(cd, i, r) && r != [] && '"' !in r;
    } else {
      assert CaptureAt(cd, 0) == 0;
    }
  }

  /** A match at `i` captures a non-empty, quote-free name that the text quotes right there. */
  lemma CaptureIsQuoted(cd: string, i: nat)
    requires i <= |cd| && CaptureAt(cd, i) > 0
    ensures var p := i + |Marker|;
      var r := cd[p..p + CaptureAt(cd, i)];
      QuotedAt(cd, i, r) && r != [] && '"' !in r
  {
    var n := CaptureAt(cd, i);
    var p := i + |Marker|;
    var r := cd[p..p + n];
    SpanIsMaximalRun(cd, p, NotQuote);
    assert cd[i..p] == Marker && cd[p + n] == '"';
    assert cd[i..p + n + 1] == Marker + r + "\"" by {
      var t, u := cd[i..p + n + 1], Marker + r + "\"";
      forall k | 0 <= k < |t| ensures t[k] == u[k] {
        if k < |Marker| {
          assert t[k] == cd[i..p][k];
        } else if k < |Marker| + n {
          assert t[k] == r[k - |Marker|];
        }
      }
    }
    assert '"' !in r by {
      forall k | 0 <= k < n ensures r[k] != '"' {
        assert r[k] == cd[p + k];
      }
    }
  }

  /** The pattern cannot start where the text has no `f`. */
  lemma NoCaptureWithoutF(cd: string, j: nat)
    requires j < |cd| && cd[j] != 'f'
    ensures CaptureAt(cd, j) == 0
  {
  }

  /** The header the download route sends is read back as the file's own name. */
  lemma DownloadNameRoundTrip(name: string, fallback: string)
    requires name != [] && '"' !in name
    ensures FilenameFromHeaders(map["Content-Disposition" := Saved.ContentDisposition(name)], fallback) == name
  {
    var headers := map["Content-Disposition" := Saved.ContentDisposition(name)];
    var cd := Disposition(headers);
    assert cd == Saved.ContentDisposition(name);
    var lead := |"attachment; "|;
    CaptureAfterLead(name);
    LeadCapturesNothing(name);
    SearchFromSpec(cd, 0);
    var m := SearchFrom(cd, 0).value;
    assert m == lead;
    assert cd[lead + |Marker|..lead + |Marker| + |name|] == name;
  }

  /** In the header the download route sends, the pattern matches after "attachment; ". */
  lemma CaptureAfterLead(name: string)
    requires name != [] && '"' !in name
    ensures CaptureAt(Saved.ContentDisposition(name), |"attachment; "|) == |name|
  {
    var cd := Saved.ContentDisposition(name);
    var lead := "attachment; ";
    assert cd == lead + Marker + name + "\"";
    var p := |lead| + |Marker|;
    assert cd[|lead|..p] == Marker;
    assert cd[p + |name|] == '"';
    forall k | p <= k < p + |name| ensures cd[k] != '"' {
      assert cd[k] == name[k - p];
    }
    SpanUpToQuote(cd, p, |name|);
  }

  /** In that header the pattern does not match inside "attachment; ". */
  lemma LeadCapturesNothing(name: string)
    ensures forall j :: 0 <= j < |"attachment; "| ==> CaptureAt(Saved.ContentDisposition(name), j) == 0
  {
    var cd := Saved.ContentDisposition(name);
    var lead := "attachment; ";
    assert cd == lead + Marker + name + "\"";
    forall j | 0 <= j < |lead| ensures CaptureAt(cd, j) == 0 {
      assert cd[j] == lead[j];
      NoCaptureWithoutF(cd, j);
    }
  }

  /** A run of `n` non-quote characters closed by a quote has span exactly `n`. */
  lemma {:induction false} SpanUpToQuote(cd: string, p: nat, n: nat)
    requires p + n < |cd|
    requires forall k :: p <= k < p + n ==> cd[k] != '"'
    requires cd[p + n] == '"'
    ensures Span(cd, p, NotQuote) == n
    decreases n
  {
    if n > 0 {
      SpanUpToQuote(cd, p + 1, n - 1);
    }
  }

  // ---------------------------------------------------------------- media types

  const TexMediaType := "application/x-tex"

  /** `_ext_from_media_type`. */
  function ExtFromMediaType(mt: string): string {
    if mt == "application/pdf" then ".pdf"
    else if mt == "application/x-tex" then ".tex"
    else if mt == "application/vnd.openxmlformats-officedocument.wordprocessingml.document" then ".docx"
    else ""
  }

  /** The document path's media type is read back as the extension it was sent with. */
  lemma DocumentExtRoundTrip(ext: string)
    ensures ExtFromMediaType(Formatter.OutputFor(ext).mediaType) == Formatter.OutputFor(ext).ext
  {
  }

  /** The template path's media type is read back as the extension of the rendered file. */
  lemma TemplateExtRoundTrip(ext: string)
    requires ext == ".pdf" || ext == ".tex"
    ensures ExtFromMediaType(Overleaf.MediaTypeFor(ext)) == ext
  {
  }
}
