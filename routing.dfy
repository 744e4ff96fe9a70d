/**
 * The MIME-type routing inside `analisarArquivo`: which handler the loaded
 * content goes to (lines 21-30), and which `FileReader` call loads it
 * (lines 33-39). Both tests run in the same order on the same string.
 */
module Routing {

  /** Where the content of the file goes once it is loaded. */
  datatype Route = TextAnalysis | ImagePreview | PdfPreview | Unsupported

  /** How the file is read: `readAsText`, `readAsDataURL`, `readAsArrayBuffer`, or not at all. */
  datatype ReadMode = AsText | AsDataUrl | AsArrayBuffer | NoRead

  /** `s.startsWith(p)`, compared character by character: it holds exactly when `p` is a prefix of `s`. */
  predicate StartsWith(s: string, p: string): (b: bool)
    ensures b <==> |p| <= |s| && s[..|p|] == p
  {
    if p == [] then true
    else if s == [] then false
    else
      assert p == [p[0]] + p[1..];
      assert |p| <= |s| ==> s[..|p|] == [s[0]] + s[1..][..|p| - 1];
      s[0] == p[0] && StartsWith(s[1..], p[1..])
  }

  /** script.js, lines 21-30: the first matching test wins. */
  function Classify(mime: string): (r: Route)
    ensures r == TextAnalysis <==> StartsWith(mime, "text/")
    ensures r == ImagePreview <==> StartsWith(mime, "image/")
    ensures r == PdfPreview <==> mime == "application/pdf"
    ensures r == Unsupported <==>
      !StartsWith(mime, "text/") && !StartsWith(mime, "image/") && mime != "application/pdf"
  {
    if StartsWith(mime, "text/") then TextAnalysis
    else if StartsWith(mime, "image/") then ImagePreview
    else if mime == "application/pdf" then PdfPreview
    else Unsupported
  }

  /** script.js, lines 33-39: the read call started right away; none for a type outside the three prefixes. */
  function ReadModeFor(mime: string): (r: ReadMode)
    ensures r == AsText <==> "text/" <= mime
    ensures r == AsDataUrl <==> "image/" <= mime
    ensures r == AsArrayBuffer <==> mime == "application/pdf"
    ensures r == NoRead <==> !("text/" <= mime) && !("image/" <= mime) && mime != "application/pdf"
  {
    if StartsWith(mime, "text/") then AsText
    else if StartsWith(mime, "image/") then AsDataUrl
    else if mime == "application/pdf" then AsArrayBuffer
    else NoRead
  }

  /**
   * The two chains agree: text is read as text, an image as a data URL, a
   * PDF as an array buffer, and an unsupported type is never read.
   */
  lemma ReadModeMatchesRoute(mime: string)
    ensures ReadModeFor(mime) == AsText <==> Classify(mime) == TextAnalysis
    ensures ReadModeFor(mime) == AsDataUrl <==> Classify(mime) == ImagePreview
    ensures ReadModeFor(mime) == AsArrayBuffer <==> Classify(mime) == PdfPreview
    ensures ReadModeFor(mime) == NoRead <==> Classify(mime) == Unsupported
  {
  }

  /** What the page does with a picked file: nothing at all, or hand the loaded content to one route. */
  datatype Outcome = Silent | Handled(route: Route)

  /**
   * script.js, lines 13-39: `onload` fires only once a read of lines 33-39
   * has been started, and then runs the chain of lines 21-30. An unsupported
   * type starts no read, so its alert (lines 28-29) is never reached.
   */
  function Dispatch(mime: string): (o: Outcome)
    ensures o == Silent <==> Classify(mime) == Unsupported
    ensures o.Handled? ==> o.route == Classify(mime)
    ensures o != Handled(Unsupported)
  {
    ReadModeMatchesRoute(mime);
    if ReadModeFor(mime) == NoRead then Silent else Handled(Classify(mime))
  }
}
