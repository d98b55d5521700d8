/** The line-ending step of `_convertCharset` (back-filesystem/src/working-util.js:191):
    `.replace(/\r\n/g, "\n")`, a single left-to-right scan in which every
    CR LF pair found becomes LF. Stated over bytes: CR and LF are one byte
    each in UTF-8 and never occur inside a multi-byte sequence. */
module LineEndings {
  import opened Common

  const CR: byte := 13
  const LF: byte := 10

  function CrlfToLf(s: Bytes): (r: Bytes)
    ensures |r| <= |s|
    ensures CR !in s ==> r == s
    ensures LF !in s ==> r == s
    decreases |s|
  {
    if |s| >= 2 && s[0] == CR && s[1] == LF then [LF] + CrlfToLf(s[2..])
    else if s == [] then []
    else [s[0]] + CrlfToLf(s[1..])
  }

  /** A reference definition that does not scan: drop every CR that is immediately followed by LF. */
  function DropCrBeforeLf(s: Bytes): Bytes
    decreases |s|
  {
    if s == [] then []
    else (if |s| >= 2 && s[0] == CR && s[1] == LF then [] else [s[0]]) + DropCrBeforeLf(s[1..])
  }

  /** Writing each LF as CR LF: the form a Windows editor saves. */
  function LfToCrlf(t: Bytes): Bytes
    decreases |t|
  {
    if t == [] then []
    else (if t[0] == LF then [CR, LF] else [t[0]]) + LfToCrlf(t[1..])
  }

  /** `s` contains CR immediately followed by LF. */
  predicate HasCrlf(s: Bytes)
    decreases |s|
  {
    |s| >= 2 && ((s[0] == CR && s[1] == LF) || HasCrlf(s[1..]))
  }

  /** `s` contains CR CR LF. */
  predicate HasCrCrlf(s: Bytes)
    decreases |s|
  {
    |s| >= 3 && ((s[0] == CR && s[1] == CR && s[2] == LF) || HasCrCrlf(s[1..]))
  }

  /** The scan removes exactly the CRs that stand right before a LF: no CR
      can be the second half of a pair, so the scan never skips one. */
  lemma {:induction false} ScanDropsCrBeforeLf(s: Bytes)
    ensures CrlfToLf(s) == DropCrBeforeLf(s)
    decreases |s|
  {
    if |s| >= 2 && s[0] == CR && s[1] == LF {
      ScanDropsCrBeforeLf(s[2..]);
      assert s[1..][1..] == s[2..];
      assert DropCrBeforeLf(s[1..]) == [LF] + DropCrBeforeLf(s[2..]);
    } else if s != [] {
      ScanDropsCrBeforeLf(s[1..]);
    }
  }

  /** Reading back a file saved with CR LF line endings gives the LF text:
      CR LF pairs are undone and every other CR (a lone one, or one before
      another CR) is kept. */
  lemma {:induction false} CrlfRoundTrip(t: Bytes)
    ensures CrlfToLf(LfToCrlf(t)) == t
    decreases |t|
  {
    if t != [] {
      var rest := LfToCrlf(t[1..]);
      CrlfRoundTrip(t[1..]);
      LfToCrlfNoLeadingLf(t[1..]);
      if t[0] == LF {
        assert LfToCrlf(t) == [CR, LF] + rest;
        assert ([CR, LF] + rest)[2..] == rest;
      } else {
        assert LfToCrlf(t) == [t[0]] + rest;
        assert ([t[0]] + rest)[1..] == rest;
      }
    }
  }

  lemma LfToCrlfNoLeadingLf(t: Bytes)
    ensures LfToCrlf(t) == [] || LfToCrlf(t)[0] != LF
  {
  }

  lemma FirstAfterScan(s: Bytes)
    requires s != []
    ensures CrlfToLf(s) != []
    ensures CrlfToLf(s)[0] == (if |s| >= 2 && s[0] == CR && s[1] == LF then LF else s[0])
  {
  }

  /** The output still holds a CR LF exactly when the input held CR CR LF:
      the first CR survives and the pair after it becomes LF. So "\r\r\n"
      becomes "\r\n", and the rewrite is not idempotent. */
  lemma {:induction false} CrlfSurvivesExactlyFromCrCrlf(s: Bytes)
    ensures HasCrlf(CrlfToLf(s)) <==> HasCrCrlf(s)
    decreases |s|
  {
    if |s| >= 2 && s[0] == CR && s[1] == LF {
      var rest := s[2..];
      CrlfSurvivesExactlyFromCrCrlf(rest);
      assert CrlfToLf(s) == [LF] + CrlfToLf(rest);
      assert ([LF] + CrlfToLf(rest))[1..] == CrlfToLf(rest);
      assert s[1..][1..] == rest;
      assert HasCrCrlf(s) == HasCrCrlf(s[1..]);
      assert HasCrCrlf(s[1..]) == HasCrCrlf(rest);
    } else if s != [] {
      var rest := s[1..];
      CrlfSurvivesExactlyFromCrCrlf(rest);
      var out := CrlfToLf(rest);
      assert CrlfToLf(s) == [s[0]] + out;
      assert ([s[0]] + out)[1..] == out;
      if rest != [] {
        FirstAfterScan(rest);
      }
    }
  }

  /** The rewrite is not idempotent. */
  lemma NotIdempotent()
    ensures CrlfToLf([CR, CR, LF]) == [CR, LF]
    ensures CrlfToLf(CrlfToLf([CR, CR, LF])) == [LF]
  {
    assert [CR, CR, LF][1..] == [CR, LF];
    assert [CR, LF][2..] == [];
  }
}
