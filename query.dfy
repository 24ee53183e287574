/** The SQL text `insert_motion_table` builds for one motion row: the fixed
    INSERT prefix, the local timestamp, a closing quote and comma, the digit of
    the screen flag and a closing parenthesis, written into a buffer sized
    from the lengths of its parts. */
module InsertQuery {

  datatype Option<T> = None | Some(value: T)

  /** `DB_INSERT_START`: everything up to and including the quote that opens the timestamp. */
  const InsertStart: string := "insert into motion (motion_timestamp, screen_on) values ('"

  /** The digit `%d` prints for `is_screen_on ? 1 : 0`. */
  function Digit(isScreenOn: bool): (c: char)
    ensures c == '1' || c == '0'
    ensures c == '1' <==> isScreenOn
  {
    if isScreenOn then '1' else '0'
  }

  /** The full text of `"%s%s',%d)"` applied to the prefix, the timestamp and the flag. */
  function Format(ts: string, isScreenOn: bool): (q: string)
    ensures |q| == |InsertStart| + |ts| + 4
    ensures q[..|InsertStart|] == InsertStart
    ensures q[|q| - 1] == ')'
  {
    InsertStart + ts + "'," + [Digit(isScreenOn)] + ")"
  }

  /** `len`: the prefix's length, the timestamp's length, and 5 more bytes. */
  function BufferLength(ts: string): (len: int)
    ensures len > 5
  {
    |InsertStart| + |ts| + 5
  }

  /** `snprintf` into `size` bytes: at most `size - 1` characters are kept, then the terminator. */
  function Snprintf(size: int, formatted: string): (written: string)
    requires size > 0
    ensures |written| < size
    ensures written <= formatted
    ensures |formatted| < size ==> written == formatted
    ensures |formatted| >= size ==> |written| == size - 1
  {
    if |formatted| < size then formatted else formatted[..size - 1]
  }

  /** The query `insert_motion_table` hands to the database for this timestamp and
      flag: what `snprintf` leaves in the `len`-byte buffer, which is the whole query. */
  function BuildQuery(ts: string, isScreenOn: bool): (q: string)
    ensures q == Format(ts, isScreenOn)
    ensures |q| + 1 == BufferLength(ts)
  {
    Snprintf(BufferLength(ts), Format(ts, isScreenOn))
  }

  /** The five extra bytes are exactly the quote, the comma, the digit, the
      parenthesis and the terminator: the buffer holds the whole query with no
      byte to spare, so nothing is truncated whatever the timestamp. */
  lemma BufferExact(ts: string, isScreenOn: bool)
    ensures |Format(ts, isScreenOn)| + 1 == BufferLength(ts)
    ensures BuildQuery(ts, isScreenOn) == Format(ts, isScreenOn)
  {
  }

  /** Reads the timestamp and the flag back out of a query text. */
  function ParseQuery(q: string): Option<(string, bool)> {
    var p := |InsertStart|;
    if |q| < p + 4 || q[..p] != InsertStart then None
    else if q[|q| - 4] == '\'' && q[|q| - 3] == ',' && q[|q| - 1] == ')'
            && (q[|q| - 2] == '0' || q[|q| - 2] == '1') then
      Some((q[p..|q| - 4], q[|q| - 2] == '1'))
    else None
  }

  /** A formatted query gives back its timestamp and flag. */
  lemma ParseFormat(ts: string, isScreenOn: bool)
    ensures ParseQuery(Format(ts, isScreenOn)) == Some((ts, isScreenOn))
  {
    var q := Format(ts, isScreenOn);
    var p := |InsertStart|;
    assert q == InsertStart + ts + ['\'', ',', Digit(isScreenOn), ')'];
    assert q[p..|q| - 4] == ts;
  }

  /** Every text that parses is the formatting of what it parses to. */
  lemma FormatParse(q: string, ts: string, isScreenOn: bool)
    requires ParseQuery(q) == Some((ts, isScreenOn))
    ensures Format(ts, isScreenOn) == q
  {
  }

  /** Distinct rows give distinct queries. */
  lemma FormatInjective(ts1: string, b1: bool, ts2: string, b2: bool)
    requires Format(ts1, b1) == Format(ts2, b2)
    ensures ts1 == ts2 && b1 == b2
  {
    ParseFormat(ts1, b1);
    ParseFormat(ts2, b2);
  }
}
