/** The per-file decision of `_getFileInfo` (back-filesystem/src/working-util.js:138-169):
    a file whose MIME type is textual is read and inlined (or, above the size
    limit, listed by name only); any other file is listed by name only unless
    its name is reserved, in which case it is left out. */
module Classifier {
  import opened Common
  import opened Paths

  /** The characters JavaScript's `.` does not match. */
  predicate LineTerminator(c: char) {
    c == '\n' || c == '\r' || c == '\U{2028}' || c == '\U{2029}'
  }

  /** JavaScript's `\w`. */
  predicate WordChar(c: char) {
    ('a' <= c <= 'z') || ('A' <= c <= 'Z') || ('0' <= c <= '9') || c == '_'
  }

  /** `/^(text\/.*)$/`: "text/" and then anything but a line terminator. */
  predicate IsTextMime(m: string) {
    StartsWith(m, "text/") && forall i :: 5 <= i < |m| ==> !LineTerminator(m[i])
  }

  /** `/^(\..*|octave-\w+)$/`: a dot file, or "octave-" and one or more word characters. */
  predicate IsReservedName(name: string) {
    || (|name| >= 1 && name[0] == '.' && forall i :: 1 <= i < |name| ==> !LineTerminator(name[i]))
    || (|name| > 7 && name[..7] == "octave-" && forall i :: 7 <= i < |name| ==> WordChar(name[i]))
  }

  /** The three outcomes for one regular file. */
  datatype Verdict = ReadText | ListNameOnly | Exclude

  /** The decision, from the inferred MIME type, the name and the size reported by lstat. */
  function Classify(mime: string, name: string, size: nat, limit: nat): (v: Verdict)
    ensures v == ReadText <==> IsTextMime(mime) && size <= limit
    ensures v == Exclude <==> !IsTextMime(mime) && IsReservedName(name)
    ensures IsTextMime(mime) ==> v != Exclude
  {
    if IsTextMime(mime) then
      if size > limit then ListNameOnly else ReadText
    else if !IsReservedName(name) then ListNameOnly
    else Exclude
  }

  /** A listed file: either its text, or only the fact that it is there (`isText: false`). */
  datatype Entry = Text(content: Bytes) | NameOnly {
    predicate IsText() { Text? }
  }

  /** An element of the list `_getFileInfo` produces: the entry with its path relative to the workspace. */
  datatype FileInfo = FileInfo(filename: string, entry: Entry)

  /** The two kinds of reserved names, and names that look close to them but are not reserved. */
  lemma ReservedExamples()
    ensures IsReservedName(".hidden") && IsReservedName(".secret") && IsReservedName(".")
    ensures IsReservedName("octave-workspace") && IsReservedName("octave-core_1")
    ensures !IsReservedName("octave-") && !IsReservedName("octave-a.b") && !IsReservedName("a.m")
    ensures !IsReservedName(".a\nb")
  {
    assert "octave-a.b"[8] == '.';
    assert ".a\nb"[2] == '\n';
  }
}
