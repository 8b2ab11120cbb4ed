/** The header scan: the loop that reads `key = value` lines until the end
    of the file or until `ElementDataFile = LOCAL` (reader.py:61-95,
    pymetaio/io.py:61-95). */
module Header {
  import opened Wrappers
  import opened Text
  import opened Tags
  import opened Values

  const NEWLINE: byte := 10

  /** Python `range(start, stop, step)` as a list. */
  function Range(start: int, stop: int, step: int): seq<int>
    requires step != 0
    decreases if step > 0 then stop - start else start - stop
  {
    if (step > 0 && start < stop) || (step < 0 && start > stop) then
      [start] + Range(start + step, stop, step)
    else []
  }

  /** The k-th element of a range is `start + k * step`; every element lies
      before `stop` and the next one would not. */
  lemma {:induction false} RangeSpec(start: int, stop: int, step: int)
    requires step != 0
    ensures var r := Range(start, stop, step);
      && (forall k :: 0 <= k < |r| ==> r[k] == start + k * step)
      && (forall k :: 0 <= k < |r| ==> if step > 0 then r[k] < stop else r[k] > stop)
      && (if step > 0 then start + |r| * step >= stop else start + |r| * step <= stop)
    decreases if step > 0 then stop - start else start - stop
  {
    var r := Range(start, stop, step);
    if (step > 0 && start < stop) || (step < 0 && start > stop) {
      var rest := Range(start + step, stop, step);
      RangeSpec(start + step, stop, step);
      assert r == [start] + rest;
      forall k | 1 <= k < |r|
        ensures r[k] == start + k * step
      {
        assert r[k] == rest[k - 1] == start + step + (k - 1) * step;
        assert (k - 1) * step + step == k * step;
      }
      assert (|r| - 1) * step + step == |r| * step;
    }
  }

  /** The three integers of a `%` pattern `fmt start stop step`, with the
      interpreter's errors for a missing argument and a non-integer one,
      raised in the order Python evaluates them. */
  function PatternArgs(args: seq<string>): Result<(int, int, int)> {
    if |args| < 2 then Failure(Error(IndexError, PatternTooShort))
    else if ParseInt(args[1]).None? then Failure(Error(ValueError, NotAnInteger))
    else if |args| < 3 then Failure(Error(IndexError, PatternTooShort))
    else if ParseInt(args[2]).None? then Failure(Error(ValueError, NotAnInteger))
    else if |args| < 4 then Failure(Error(IndexError, PatternTooShort))
    else if ParseInt(args[3]).None? then Failure(Error(ValueError, NotAnInteger))
    else Success((ParseInt(args[1]).value, ParseInt(args[2]).value, ParseInt(args[3]).value))
  }

  /** The file list of a `%` pattern:
      `[fmt % i for i in range(start, stop + step, step)]`
      (reader.py:91-93, pymetaio/io.py:91-93). */
  function PatternPaths(value: string, rt: Runtime): Result<seq<string>> {
    var args := Split(value);
    var (start, stop, step) :- PatternArgs(args);
    if step == 0 then Failure(Error(ValueError, ZeroStep))
    else Success(Map((i: int) => rt.format(args[0], i), Range(start, stop + step, step)))
  }

  /** The entry an `ElementDataFile` line declares outside `LIST` mode: the
      list of names, and whether it opened `LIST` or `LOCAL` mode
      (reader.py:84-95, pymetaio/io.py:84-95). */
  function DataFileEntry(value: string, filepath: string, rt: Runtime): Result<(seq<string>, bool, bool)> {
    if Upper(value) == "LIST" then Success(([], true, false))
    else if Upper(value) == "LOCAL" then Success(([filepath], false, true))
    else if Contains(value, '%') then
      var ps :- PatternPaths(value, rt);
      Success((ps, false, false))
    else Success(([value], false, false))
  }

  /** A decoded header line taken apart as the loop body does: whether it
      is skipped (empty or a comment), the key in the table's spelling when
      it is a tag, the value, and the whole line stripped (reader.py:66-79,
      pymetaio/io.py:66-80). */
  datatype HeaderLine = HeaderLine(skipped: bool, key: string, value: string, text: string)

  function ParseLine(line: string): HeaderLine {
    HeaderLine(line == "" || StartsWith(line, "#"),
               Canonical(Strip(KeyPart(line))), Strip(ValuePart(line)), Strip(line))
  }

  /** The state of the scan: the raw header dict (every value a string,
      except the data-file entry, which is a list of names), the number of
      characters consumed, and whether a `LIST` or `LOCAL` data file was
      declared. */
  datatype Scan = Scan(meta: Dict, size: nat, islist: bool, islocal: bool)

  const START: Scan := Scan(Dict([], map[]), 0, false, false)

  /** One iteration of the header loop on a line of `size` characters
      (reader.py:65-95, pymetaio/io.py:65-95). */
  function ScanLine(gen: Generation, st: Scan, size: nat, h: HeaderLine, filepath: string, rt: Runtime): (r: Result<Scan>)
    ensures r.Success? ==> r.value.size == st.size + size
  {
    var size := st.size + size;
    if h.skipped then Success(st.(size := size))
    else
      // pymetaio stores a key only when the table lookup succeeds
      var meta := if gen == Current || IsTag(h.key) then st.meta.Put(h.key, Str(h.value)) else st.meta;
      if st.islist then
        var edf := meta.Get(ELEMENT_DATA_FILE);
        if !edf.Paths? then Failure(Error(AttributeError, AppendToString))
        else Success(st.(meta := meta.Put(ELEMENT_DATA_FILE, Paths(edf.ps + [h.text])), size := size))
      else if h.key == ELEMENT_DATA_FILE then
        (match DataFileEntry(h.value, filepath, rt)
         case Failure(e) => Failure(e)
         case Success(entry) =>
           Success(Scan(meta.Put(ELEMENT_DATA_FILE, Paths(entry.0)), size, entry.1, st.islocal || entry.2)))
      else Success(st.(meta := meta, size := size))
  }

  /** The rest of the loop from state `st` over the decoded lines `texts`,
      each taken apart by `parse`: it ends with the lines or with the
      `LOCAL` line. */
  function ScanFrom(gen: Generation, st: Scan, texts: seq<string>, parse: string -> HeaderLine,
                    filepath: string, rt: Runtime): (r: Result<Scan>)
    ensures r.Success? ==> r.value.size >= st.size
    decreases |texts|
  {
    if texts == [] || st.islocal then Success(st)
    else
      match ScanLine(gen, st, |texts[0]|, parse(texts[0]), filepath, rt)
      case Failure(e) => Failure(e)
      case Success(next) => ScanFrom(gen, next, texts[1..], parse, filepath, rt)
  }

  /** The header scan of a file's content with the line parser `parse`. */
  function ReadWith(gen: Generation, file: seq<byte>, parse: string -> HeaderLine,
                    filepath: string, rt: Runtime): Result<Scan> {
    ScanFrom(gen, START, Map(rt.decode, Lines(file, NEWLINE)), parse, filepath, rt)
  }

  /** The header of the file at `filepath`, whose content is `file`. */
  function ReadHeader(gen: Generation, file: seq<byte>, filepath: string, rt: Runtime): Result<Scan> {
    ReadWith(gen, file, ParseLine, filepath, rt)
  }

  /** The header loop itself (reader.py:62-95, pymetaio/io.py:62-95):
      each line is decoded and taken apart by `parse`, and the loop stops at
      the end of the file or right after the `LOCAL` line. */
  method ScanLines(gen: Generation, lines: seq<seq<byte>>, parse: string -> HeaderLine,
                   filepath: string, rt: Runtime) returns (r: Result<Scan>)
    ensures r == ScanFrom(gen, START, Map(rt.decode, lines), parse, filepath, rt)
  {
    ghost var texts := Map(rt.decode, lines);
    ghost var whole := ScanFrom(gen, START, texts, parse, filepath, rt);
    var st := START;
    var i := 0;
    while i < |lines|
      invariant 0 <= i <= |lines| == |texts|
      invariant !st.islocal
      invariant ScanFrom(gen, st, texts[i..], parse, filepath, rt) == whole
    {
      var line := rt.decode(lines[i]);
      var h := parse(line);
      var next := ScanLine(gen, st, |line|, h, filepath, rt);
      ScanFromStep(gen, st, texts, i, parse, filepath, rt);
      if next.Failure? {
        return Failure(next.error);
      }
      st := next.value;
      i := i + 1;
      if st.islocal {
        break;
      }
    }
    return Success(st);
  }

  /** One step of the scan from the `i`-th line on. */
  lemma ScanFromStep(gen: Generation, st: Scan, texts: seq<string>, i: nat, parse: string -> HeaderLine,
                     filepath: string, rt: Runtime)
    requires i < |texts| && !st.islocal
    ensures ScanFrom(gen, st, texts[i..], parse, filepath, rt)
         == match ScanLine(gen, st, |texts[i]|, parse(texts[i]), filepath, rt)
            case Failure(e) => Failure(e)
            case Success(next) => ScanFrom(gen, next, texts[i + 1..], parse, filepath, rt)
  {
    assert texts[i..][0] == texts[i] && texts[i..][1..] == texts[i + 1..];
  }

  /** Reading the header of the file at `filepath`, whose content is
      `file`. */
  method ScanHeader(gen: Generation, file: seq<byte>, filepath: string, rt: Runtime) returns (r: Result<Scan>)
    ensures r == ReadHeader(gen, file, filepath, rt)
  {
    r := ScanLines(gen, Lines(file, NEWLINE), ParseLine, filepath, rt);
  }

  // ------------------------------------------------------------ properties

  /** The `%` form names one file per index of
      `range(start, stop + step, step)`, each produced by `fmt % index`:
      the indices run from `start` by `step` up to the first one that
      reaches `stop + step`. */
  lemma PatternPathsSpec(value: string, rt: Runtime, start: int, stop: int, step: int)
    requires PatternArgs(Split(value)) == Success((start, stop, step))
    requires step != 0
    ensures PatternPaths(value, rt).Success?
    ensures var ps := PatternPaths(value, rt).value;
      && (forall k :: 0 <= k < |ps| ==> ps[k] == rt.format(Split(value)[0], start + k * step))
      && (forall k :: 0 <= k < |ps| ==>
            if step > 0 then start + k * step < stop + step else start + k * step > stop + step)
      && (if step > 0 then start + |ps| * step >= stop + step else start + |ps| * step <= stop + step)
  {
    var args := Split(value);
    var r := Range(start, stop + step, step);
    RangeSpec(start, stop + step, step);
    var ps := PatternPaths(value, rt).value;
    assert ps == Map((i: int) => rt.format(args[0], i), r);
    forall k | 0 <= k < |ps|
      ensures if step > 0 then start + k * step < stop + step else start + k * step > stop + step
    {
      assert r[k] == start + k * step;
    }
  }

  /** Cancels a positive factor in a strict inequality. */
  lemma MulLess(a: int, b: int, step: int)
    requires step > 0 && a * step < b * step
    ensures a < b
  {
  }

  /** When `stop` is reached from `start` in whole steps, the pattern names
      exactly the files from `start` to `stop` inclusive: `stop` is the last
      index. */
  lemma PatternInclusive(value: string, rt: Runtime, start: int, stop: int, step: int, q: nat)
    requires PatternArgs(Split(value)) == Success((start, stop, step))
    requires step > 0 && stop == start + q * step
    ensures PatternPaths(value, rt).Success?
    ensures var ps := PatternPaths(value, rt).value;
      |ps| == q + 1 && ps[q] == rt.format(Split(value)[0], stop)
  {
    PatternPathsSpec(value, rt, start, stop, step);
    var ps := PatternPaths(value, rt).value;
    assert (q + 1) * step == q * step + step;
    MulLess(q, |ps|, step);
  }

  // ------------------------------------------------ the data-file entry

  /** The names the lines `texts` add to a `LIST` data file: the stripped
      text of every line that is neither empty nor a comment, in order. */
  function ListedNames(texts: seq<string>, parse: string -> HeaderLine): seq<string>
    decreases |texts|
  {
    if texts == [] then []
    else (if parse(texts[0]).skipped then [] else [parse(texts[0]).text]) + ListedNames(texts[1..], parse)
  }

  /** `ElementDataFile = LIST`, in any case, outside `LIST` mode: the data
      file becomes an empty list and the scan enters `LIST` mode
      (reader.py:83-85). */
  lemma ListStarts(gen: Generation, st: Scan, size: nat, h: HeaderLine, filepath: string, rt: Runtime)
    requires !st.islist && !h.skipped && h.key == ELEMENT_DATA_FILE && Upper(h.value) == "LIST"
    ensures var r := ScanLine(gen, st, size, h, filepath, rt);
      && r.Success? && r.value.islist && r.value.islocal == st.islocal
      && r.value.meta.Get(ELEMENT_DATA_FILE) == Paths([])
  {
  }

  /** In `LIST` mode, every later line that is neither empty nor a comment
      is appended, stripped, to the data-file list, in file order, and the
      scan stays in `LIST` mode to the end of the file (reader.py:81-82).
      The lines must not assign `ElementDataFile` again: such a line turns
      the list into a string, and the next append fails. */
  lemma ListAccumulates(gen: Generation, st: Scan, texts: seq<string>,
                        parse: string -> HeaderLine, filepath: string, rt: Runtime)
    requires st.islist && !st.islocal && st.meta.Get(ELEMENT_DATA_FILE).Paths?
    requires forall i :: 0 <= i < |texts| ==> parse(texts[i]).skipped || parse(texts[i]).key != ELEMENT_DATA_FILE
    ensures var r := ScanFrom(gen, st, texts, parse, filepath, rt);
      && r.Success? && r.value.islist && !r.value.islocal
      && r.value.meta.Get(ELEMENT_DATA_FILE) == Paths(st.meta.Get(ELEMENT_DATA_FILE).ps + ListedNames(texts, parse))
  {
    KeepsListOf(texts, parse);
    ListFrom(gen, st, texts, parse, filepath, rt);
  }

  /** No line of `texts` assigns `ElementDataFile`. */
  predicate KeepsList(texts: seq<string>, parse: string -> HeaderLine)
    decreases |texts|
  {
    texts == [] || ((parse(texts[0]).skipped || parse(texts[0]).key != ELEMENT_DATA_FILE) && KeepsList(texts[1..], parse))
  }

  lemma {:induction false} KeepsListOf(texts: seq<string>, parse: string -> HeaderLine)
    requires forall i :: 0 <= i < |texts| ==> parse(texts[i]).skipped || parse(texts[i]).key != ELEMENT_DATA_FILE
    ensures KeepsList(texts, parse)
    decreases |texts|
  {
    if texts != [] {
      assert forall i :: 0 <= i < |texts[1..]| ==> texts[1..][i] == texts[i + 1];
      KeepsListOf(texts[1..], parse);
    }
  }

  lemma {:induction false} ListFrom(gen: Generation, st: Scan, texts: seq<string>,
                                    parse: string -> HeaderLine, filepath: string, rt: Runtime)
    requires st.islist && !st.islocal && st.meta.Get(ELEMENT_DATA_FILE).Paths?
    requires KeepsList(texts, parse)
    ensures var r := ScanFrom(gen, st, texts, parse, filepath, rt);
      && r.Success? && r.value.islist && !r.value.islocal
      && r.value.meta.Get(ELEMENT_DATA_FILE) == Paths(st.meta.Get(ELEMENT_DATA_FILE).ps + ListedNames(texts, parse))
    decreases |texts|
  {
    var ps := st.meta.Get(ELEMENT_DATA_FILE).ps;
    if texts == [] {
      assert ps + [] == ps;
    } else {
      var h := parse(texts[0]);
      var next := ScanLine(gen, st, |texts[0]|, h, filepath, rt);
      var added := if h.skipped then [] else [h.text];
      ListLine(gen, st, |texts[0]|, h, filepath, rt);
      ScanFromCons(gen, st, texts, parse, filepath, rt);
      ListFrom(gen, next.value, texts[1..], parse, filepath, rt);
      assert ListedNames(texts, parse) == added + ListedNames(texts[1..], parse);
      AppendNames(ps, added, ListedNames(texts[1..], parse));
    }
  }

  lemma AppendNames(ps: seq<string>, added: seq<string>, tail: seq<string>)
    ensures (ps + added) + tail == ps + (added + tail)
  {
  }


  lemma ScanFromCons(gen: Generation, st: Scan, texts: seq<string>, parse: string -> HeaderLine,
                     filepath: string, rt: Runtime)
    requires texts != [] && !st.islocal
    requires ScanLine(gen, st, |texts[0]|, parse(texts[0]), filepath, rt).Success?
    ensures ScanFrom(gen, st, texts, parse, filepath, rt)
         == ScanFrom(gen, ScanLine(gen, st, |texts[0]|, parse(texts[0]), filepath, rt).value, texts[1..], parse, filepath, rt)
  {
  }

  /** One line in `LIST` mode that does not assign `ElementDataFile`. */
  lemma ListLine(gen: Generation, st: Scan, size: nat, h: HeaderLine, filepath: string, rt: Runtime)
    requires st.islist && !st.islocal && st.meta.Get(ELEMENT_DATA_FILE).Paths?
    requires h.skipped || h.key != ELEMENT_DATA_FILE
    ensures var r := ScanLine(gen, st, size, h, filepath, rt);
      && r.Success? && r.value.islist && !r.value.islocal
      && r.value.meta.Get(ELEMENT_DATA_FILE)
         == Paths(st.meta.Get(ELEMENT_DATA_FILE).ps + (if h.skipped then [] else [h.text]))
  {
  }

  /** `ElementDataFile = LOCAL`, in any case, outside `LIST` mode: the data
      file is the header file itself and the scan stops there, whatever
      lines follow (reader.py:87-90). */
  lemma LocalStops(gen: Generation, st: Scan, t: string, rest: seq<string>, parse: string -> HeaderLine,
                   filepath: string, rt: Runtime)
    requires !st.islist && !st.islocal
    requires !parse(t).skipped && parse(t).key == ELEMENT_DATA_FILE && Upper(parse(t).value) == "LOCAL"
    ensures var r := ScanFrom(gen, st, [t] + rest, parse, filepath, rt);
      && r == ScanLine(gen, st, |t|, parse(t), filepath, rt)
      && r.Success? && r.value.islocal && !r.value.islist && r.value.size == st.size + |t|
      && r.value.meta.Get(ELEMENT_DATA_FILE) == Paths([filepath])
  {
    assert ([t] + rest)[0] == t && ([t] + rest)[1..] == rest;
  }

  /** A `%` pattern outside `LIST` mode: the data file is the list of names
      the pattern expands to, or the line fails with the pattern's error
      (reader.py:91-93). */
  lemma PatternLine(gen: Generation, st: Scan, size: nat, h: HeaderLine, filepath: string, rt: Runtime)
    requires !st.islist && !h.skipped && h.key == ELEMENT_DATA_FILE
    requires Upper(h.value) != "LIST" && Upper(h.value) != "LOCAL" && Contains(h.value, '%')
    ensures var r := ScanLine(gen, st, size, h, filepath, rt);
      && (r.Success? <==> PatternPaths(h.value, rt).Success?)
      && (r.Failure? ==> r.error == PatternPaths(h.value, rt).error)
      && (r.Success? ==>
            && !r.value.islist && r.value.islocal == st.islocal
            && r.value.meta.Get(ELEMENT_DATA_FILE) == Paths(PatternPaths(h.value, rt).value))
  {
  }

  /** Any other value outside `LIST` mode names one data file, as written
      (reader.py:94-95). */
  lemma BareValue(gen: Generation, st: Scan, size: nat, h: HeaderLine, filepath: string, rt: Runtime)
    requires !st.islist && !h.skipped && h.key == ELEMENT_DATA_FILE
    requires Upper(h.value) != "LIST" && Upper(h.value) != "LOCAL" && !Contains(h.value, '%')
    ensures var r := ScanLine(gen, st, size, h, filepath, rt);
      && r.Success? && !r.value.islist && r.value.islocal == st.islocal
      && r.value.meta.Get(ELEMENT_DATA_FILE) == Paths([h.value])
  {
  }

  /** What a successful scan leaves in the raw dict: keys in canonical
      spelling (in pymetaio only table tags), the data-file entry a list of
      names, every other entry a string; in `LIST` mode the entry exists. */
  ghost predicate RawShape(gen: Generation, st: Scan) {
    && RawDict(gen, st.meta)
    && (st.islist ==> st.meta.Has(ELEMENT_DATA_FILE))
  }

  ghost predicate RawDict(gen: Generation, d: Dict) {
    && d.Valid()
    && (forall k :: d.Has(k) ==> RawEntry(gen, k, d.vals[k]))
  }

  ghost predicate RawEntry(gen: Generation, k: string, v: Value) {
    && Canonical(k) == k
    && (gen == Legacy ==> IsTag(k))
    && (if k == ELEMENT_DATA_FILE then v.Paths? else v.Str?)
  }

  lemma PutRaw(gen: Generation, d: Dict, k: string, v: Value)
    requires RawDict(gen, d) && RawEntry(gen, k, v)
    ensures RawDict(gen, d.Put(k, v))
  {
    d.PutValid(k, v);
  }

  lemma DataFileIsTag()
    ensures IsTag(ELEMENT_DATA_FILE) && Canonical(ELEMENT_DATA_FILE) == ELEMENT_DATA_FILE
  {
    assert TAGS[33] == ELEMENT_DATA_FILE;
    CanonicalOfTag(33);
  }

  lemma ScanLineShape(gen: Generation, st: Scan, size: nat, h: HeaderLine, filepath: string, rt: Runtime)
    requires RawShape(gen, st) && Canonical(h.key) == h.key
    requires ScanLine(gen, st, size, h, filepath, rt).Success?
    ensures RawShape(gen, ScanLine(gen, st, size, h, filepath, rt).value)
  {
    DataFileIsTag();
    var key, value := h.key, h.value;
    var stored := gen == Current || IsTag(key);
    var meta := if stored then st.meta.Put(key, Str(value)) else st.meta;
    if h.skipped {
    } else if st.islist {
      ListLineShape(gen, st, h);
    } else if key == ELEMENT_DATA_FILE {
      var entry := DataFileEntry(value, filepath, rt).value;
      st.meta.PutTwice(ELEMENT_DATA_FILE, Str(value), Paths(entry.0));
      PutRaw(gen, st.meta, ELEMENT_DATA_FILE, Paths(entry.0));
    } else if stored {
      PutRaw(gen, st.meta, key, Str(value));
    }
  }

  /** A line after `LIST` is appended to the file names and keeps them
      a list. */
  lemma ListLineShape(gen: Generation, st: Scan, h: HeaderLine)
    requires RawShape(gen, st) && Canonical(h.key) == h.key && st.islist
    requires var meta := if gen == Current || IsTag(h.key) then st.meta.Put(h.key, Str(h.value)) else st.meta;
      meta.Get(ELEMENT_DATA_FILE).Paths?
    ensures var meta := if gen == Current || IsTag(h.key) then st.meta.Put(h.key, Str(h.value)) else st.meta;
      RawShape(gen, st.(meta := meta.Put(ELEMENT_DATA_FILE, Paths(meta.Get(ELEMENT_DATA_FILE).ps + [h.text]))))
  {
    DataFileIsTag();
    var stored := gen == Current || IsTag(h.key);
    var meta := if stored then st.meta.Put(h.key, Str(h.value)) else st.meta;
    if stored {
      assert meta.Get(h.key) == Str(h.value);
      PutRaw(gen, st.meta, h.key, Str(h.value));
    }
    PutRaw(gen, meta, ELEMENT_DATA_FILE, Paths(meta.Get(ELEMENT_DATA_FILE).ps + [h.text]));
  }

  /** Every key the parser produces is already in canonical spelling. */
  lemma ParseLineCanonical(line: string)
    ensures Canonical(ParseLine(line).key) == ParseLine(line).key
  {
    CanonicalSpec(Strip(KeyPart(line)));
  }

  ghost predicate CanonicalKeys(texts: seq<string>, parse: string -> HeaderLine) {
    forall i :: 0 <= i < |texts| ==> Canonical(parse(texts[i]).key) == parse(texts[i]).key
  }

  lemma {:induction false} ScanShape(gen: Generation, st: Scan, texts: seq<string>, parse: string -> HeaderLine,
                                     filepath: string, rt: Runtime)
    requires RawShape(gen, st) && CanonicalKeys(texts, parse)
    requires ScanFrom(gen, st, texts, parse, filepath, rt).Success?
    ensures RawShape(gen, ScanFrom(gen, st, texts, parse, filepath, rt).value)
    decreases |texts|
  {
    if texts != [] && !st.islocal {
      var size, h := |texts[0]|, parse(texts[0]);
      ScanLineShape(gen, st, size, h, filepath, rt);
      assert CanonicalKeys(texts[1..], parse) by {
        forall i | 0 <= i < |texts[1..]|
          ensures Canonical(parse(texts[1..][i]).key) == parse(texts[1..][i]).key
        {
          assert texts[1..][i] == texts[i + 1];
        }
      }
      ScanShape(gen, ScanLine(gen, st, size, h, filepath, rt).value, texts[1..], parse, filepath, rt);
    }
  }

  /** Every header the scan accepts has the raw shape. */
  lemma ReadHeaderShape(gen: Generation, file: seq<byte>, filepath: string, rt: Runtime)
    requires ReadHeader(gen, file, filepath, rt).Success?
    ensures RawShape(gen, ReadHeader(gen, file, filepath, rt).value)
  {
    var texts := Map(rt.decode, Lines(file, NEWLINE));
    forall i | 0 <= i < |texts|
      ensures Canonical(ParseLine(texts[i]).key) == ParseLine(texts[i]).key
    {
      ParseLineCanonical(texts[i]);
    }
    ScanShape(gen, START, texts, ParseLine, filepath, rt);
  }

  /** The size counted is the length of every line read: all of them, or
      those up to and including the `LOCAL` line, which alone give the same
      scan. */
  lemma {:induction false} ScanSize(gen: Generation, st: Scan, texts: seq<string>, parse: string -> HeaderLine,
                                    filepath: string, rt: Runtime)
    requires !st.islocal
    requires ScanFrom(gen, st, texts, parse, filepath, rt).Success?
    ensures var r := ScanFrom(gen, st, texts, parse, filepath, rt).value;
      if r.islocal then
        exists n :: 0 < n <= |texts| && r.size == st.size + |Flatten(Take(texts, n))|
                    && ScanFrom(gen, st, Take(texts, n), parse, filepath, rt) == Success(r)
      else r.size == st.size + |Flatten(texts)|
    decreases |texts|
  {
    var r := ScanFrom(gen, st, texts, parse, filepath, rt).value;
    if texts != [] {
      var next := ScanLine(gen, st, |texts[0]|, parse(texts[0]), filepath, rt).value;
      assert Take(texts, 1) == [texts[0]] && Take(texts, 1)[1..] == [];
      if next.islocal {
        assert Flatten(Take(texts, 1)) == texts[0] + Flatten([]);
        assert ScanFrom(gen, st, Take(texts, 1), parse, filepath, rt) == Success(r);
      } else {
        ScanSize(gen, next, texts[1..], parse, filepath, rt);
        if r.islocal {
          var n' :| 0 < n' <= |texts[1..]| && r.size == next.size + |Flatten(Take(texts[1..], n'))|
                    && ScanFrom(gen, next, Take(texts[1..], n'), parse, filepath, rt) == Success(r);
          var n := n' + 1;
          assert Take(texts, n)[0] == texts[0];
          assert Take(texts, n)[1..] == Take(texts[1..], n');
        }
      }
    }
  }

  /** Lines decoded one character per byte keep their lengths. */
  lemma {:induction false} DecodedSize(ls: seq<seq<byte>>, rt: Runtime)
    requires forall b :: |rt.decode(b)| == |b|
    ensures |Flatten(Map(rt.decode, ls))| == |Flatten(ls)|
  {
    if ls != [] {
      assert Map(rt.decode, ls)[1..] == Map(rt.decode, ls[1..]);
      DecodedSize(ls[1..], rt);
    }
  }

  lemma MapTake<A, B>(f: A -> B, s: seq<A>, n: nat)
    requires n <= |s|
    ensures Take(Map(f, s), n) == Map(f, Take(s, n))
  {
  }

  /** The scan of a prefix: when the scan of a file's lines stops at the
      `LOCAL` line, the bytes up to the size it counted are exactly the
      lines read, and scanning them alone gives the same result. */
  lemma ScanPrefix(gen: Generation, file: seq<byte>, parse: string -> HeaderLine, filepath: string, rt: Runtime)
    requires forall b :: |rt.decode(b)| == |b|
    requires ReadWith(gen, file, parse, filepath, rt).Success?
    ensures var r := ReadWith(gen, file, parse, filepath, rt).value;
      && r.size <= |file|
      && (!r.islocal ==> r.size == |file|)
      && (r.islocal ==> ReadWith(gen, file[..r.size], parse, filepath, rt) == Success(r))
  {
    var ls := Lines(file, NEWLINE);
    var texts := Map(rt.decode, ls);
    var r := ScanFrom(gen, START, texts, parse, filepath, rt).value;
    ScanSize(gen, START, texts, parse, filepath, rt);
    if r.islocal {
      var n :| 0 < n <= |texts| && r.size == |Flatten(Take(texts, n))|
               && ScanFrom(gen, START, Take(texts, n), parse, filepath, rt) == Success(r);
      MapTake(rt.decode, ls, n);
      DecodedSize(Take(ls, n), rt);
      FlattenTake(ls, n);
      LinesPrefix(file, NEWLINE, n);
    } else {
      DecodedSize(ls, rt);
    }
  }

  /** With a decoder that keeps one character per byte (an ASCII header),
      the size the scan counts is a byte offset: the whole file, or the
      bytes up to and including the `LOCAL` line, after which the embedded
      data begins and which alone give the same header. */
  lemma HeaderSizeIsOffset(gen: Generation, file: seq<byte>, filepath: string, rt: Runtime)
    requires forall b :: |rt.decode(b)| == |b|
    requires ReadHeader(gen, file, filepath, rt).Success?
    ensures var r := ReadHeader(gen, file, filepath, rt).value;
      && r.size <= |file|
      && (!r.islocal ==> r.size == |file|)
      && (r.islocal ==> ReadHeader(gen, file[..r.size], filepath, rt) == Success(r))
  {
    ScanPrefix(gen, file, ParseLine, filepath, rt);
  }
}
