/** The Content-Range header of a chunk (internal/api/handlers/uploads.go). */
module ContentRange {
  import opened Common
  import opened Text
  import opened Decimal

  /** parseContentRange: the start offset, or none for a malformed header. */
  function Parse(header: string): Option<int> {
    if header == "" then Some(0)
    else
      var parts := Split(TrimPrefix(header, "bytes="), '-');
      if |parts| != 2 then None else ParseInt(parts[0])
  }

  /** The separator is the minus sign, so no header yields a negative offset. */
  lemma StartIsNeverNegative(header: string)
    ensures Parse(header).Some? ==> 0 <= Parse(header).value < INT64_LIMIT
  {
    var range := TrimPrefix(header, "bytes=");
    SplitPartsLackSeparator(range, '-');
    var parts := Split(range, '-');
    assert parts[0] in parts;
    if parts[0] != "" {
      assert parts[0][0] in parts[0];
    }
  }

  function PrintRange(start: nat, end: nat): string {
    Print(start) + "-" + Print(end)
  }

  lemma PrintedRangeParses(start: nat, end: nat)
    ensures Parse(PrintRange(start, end)) == Parse("bytes=" + PrintRange(start, end))
    ensures Parse(PrintRange(start, end)) == if start < INT64_LIMIT then Some(start) else None
  {
    var s, e := Print(start), Print(end);
    var range := PrintRange(start, end);
    assert forall c | c in s :: IsDigit(c);
    assert forall c | c in e :: IsDigit(c);
    SplitAtFirst(s, e, '-');
    SplitWithoutSeparator(e, '-');
    assert range == s + ['-'] + e;
    assert IsDigit(range[0]);
    assert TrimPrefix(range, "bytes=") == range;
    assert TrimPrefix("bytes=" + range, "bytes=") == range;
    ParseOfPrint(start);
  }

  ghost predicate OneMinus(range: string, first: string, second: string) {
    '-' !in first && '-' !in second && range == first + ['-'] + second
  }

  /** A header names a start exactly when it is empty, or holds one minus sign with a 64-bit integer before it;
      what follows the minus sign is never looked at. */
  lemma ParseCharacterized(header: string, start: int)
    requires header != ""
    ensures Parse(header) == Some(start) <==>
            exists first, second ::
              OneMinus(TrimPrefix(header, "bytes="), first, second) && ParseInt(first) == Some(start)
  {
    var range := TrimPrefix(header, "bytes=");
    var parts := Split(range, '-');
    SplitPartsLackSeparator(range, '-');
    if |parts| == 2 {
      SplitInTwo(range, '-');
      assert parts[0] in parts && parts[1] in parts;
      assert OneMinus(range, parts[0], parts[1]);
    }
    forall first, second | OneMinus(range, first, second)
      ensures parts == [first, second]
    {
      SplitAtFirst(first, second, '-');
      SplitWithoutSeparator(second, '-');
    }
  }
}
