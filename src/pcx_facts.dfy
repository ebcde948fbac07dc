/** Properties of the PCX model: the checks the loader makes on a header,
    the run-length code, the palette the loader picks, and what loading a
    saved file gives back. */
module PcxFacts {
  import opened Bytes
  import opened Results
  import opened InputLE
  import opened OutputLE
  import opened StreamFacts
  import opened Raster
  import opened ColorTables
  import opened PcxFormat

  // ---------------------------------------------------------------------
  // The run-length code.

  /** Counting a run from `k` on, with the first `k` octets after `i`
      already equal to it: every octet the run covers equals the first,
      and the run stops only at 63 octets, at the end of the line or at a
      different octet. */
  lemma {:induction false} RunFromEqual(line: seq<byte>, i: nat, k: nat)
    requires i + k < |line| && k <= 62
    requires forall j :: i <= j <= i + k ==> line[j] == line[i]
    ensures forall j :: i <= j <= i + RunFrom(line, i, k) ==> line[j] == line[i]
    ensures var m := RunFrom(line, i, k);
      m == 62 || i + m + 1 == |line| || line[i + m] != line[i + m + 1]
    decreases 62 - k
  {
    if k < 62 && i + k + 1 < |line| && line[i + k] == line[i + k + 1] {
      RunFromEqual(line, i, k + 1);
    }
  }

  /** The run `save` finds at `i` is a maximal run of equal octets of at
      most 63: it ends at the 63rd octet, at the end of the line or where
      the next octet differs. */
  lemma RunIsMaximal(line: seq<byte>, i: nat)
    requires i < |line|
    ensures var m := RunFrom(line, i, 0);
      && (forall j :: i <= j <= i + m ==> line[j] == line[i])
      && (m == 62 || i + m + 1 == |line| || line[i + m] != line[i + m + 1])
  {
    RunFromEqual(line, i, 0);
  }

  /** `s` sits in `data` at position `p`. */
  ghost predicate At(data: seq<byte>, p: int, s: seq<byte>)
  {
    0 <= p && p + |s| <= |data| && forall k :: 0 <= k < |s| ==> data[p + k] == s[k]
  }

  /** Octet `k` of `s` is octet `p + k` of the data. */
  lemma AtIndex(data: seq<byte>, p: int, s: seq<byte>, k: nat)
    requires At(data, p, s) && k < |s|
    ensures 0 <= p && p + k < |data| && data[p + k] == s[k]
  {
  }

  /** What sits between two sequences sits right after the first. */
  lemma AtBetween(pre: seq<byte>, s: seq<byte>, post: seq<byte>)
    ensures At(pre + s + post, |pre|, s)
  {
    forall k | 0 <= k < |s|
      ensures (pre + s + post)[|pre| + k] == s[k]
    {
    }
  }

  /** The two halves of a concatenation sit one after the other. */
  lemma AtSplit(data: seq<byte>, p: int, a: seq<byte>, b: seq<byte>)
    requires At(data, p, a + b)
    ensures At(data, p, a) && At(data, p + |a|, b)
  {
    forall k | 0 <= k < |a|
      ensures data[p + k] == a[k]
    {
      assert (a + b)[k] == a[k];
    }
    forall k | 0 <= k < |b|
      ensures data[p + |a| + k] == b[k]
    {
      assert data[p + (|a| + k)] == (a + b)[|a| + k];
    }
  }

  /** The decoder's step at `p` reads a run of `len` copies of `v` and
      moves on to `q`. */
  ghost predicate Reads(data: seq<byte>, p: int, len: int, v: byte, q: int)
  {
    Run(data, p).0 == len && Run(data, p).1 == v && Run(data, p).2 == q
  }

  /** The loader's step over the code `save` writes for a run gives back
      the run: its count, its octet and the position after the code. */
  lemma RunCodeDecodes(data: seq<byte>, p: int, run: Repeat)
    requires 0 < run.count < 0x40 && At(data, p, RunCode(run))
    ensures Reads(data, p, run.count, run.value, p + |RunCode(run)|)
  {
    AtIndex(data, p, RunCode(run), 0);
    if run.count > 1 || run.value >= 0xC0 {
      AtIndex(data, p, RunCode(run), 1);
      CountedRun(data, p, run.count);
    }
  }

  /** A count octet with the value after it is a run of that count. */
  lemma CountedRun(data: seq<byte>, p: int, n: nat)
    requires n < 0x40 && 0 <= p && p + 1 < |data| && data[p] == 0xC0 + n
    ensures Reads(data, p, n, data[p + 1], p + 2)
  {
  }

  /** The octets some runs stand for, one run after the other. */
  ghost function Expand(rs: seq<Repeat>): seq<byte>
  {
    if |rs| == 0 then [] else Copies(rs[0].value, rs[0].count) + Expand(rs[1..])
  }

  /** Runs of at least one octet each stand for at least as many octets as
      there are runs. */
  lemma {:induction false} ExpandLength(rs: seq<Repeat>)
    requires Counted(rs)
    ensures |Expand(rs)| >= |rs|
  {
    if |rs| > 0 {
      ExpandLength(rs[1..]);
    }
  }

  /** One pass of the decoder's loop that does not overfill the line:
      the run is appended, and the line is done once it is full. */
  lemma DecodeStep(data: seq<byte>, p: int, n: nat, acc: seq<byte>, len: nat, v: byte, q: int)
    requires Reads(data, p, len, v, q) && |acc| + len <= n
    ensures DecodeLine(data, p, n, acc)
      == if |acc| + len >= n then Ok(Line(acc + Copies(v, len), q))
         else DecodeLine(data, q, n, acc + Copies(v, len))
  {
  }

  /** Wherever the codes of some runs sit, the decoder, with `acc` decoded
      so far and the runs filling the line exactly, appends the octets the
      runs stand for and stops right after the codes. */
  lemma {:induction false} RunCodesDecode(data: seq<byte>, p: int, n: nat, acc: seq<byte>, rs: seq<Repeat>)
    requires |rs| > 0 && Counted(rs) && At(data, p, RunCodes(rs)) && |acc| + |Expand(rs)| == n
    ensures DecodeLine(data, p, n, acc) == Ok(Line(acc + Expand(rs), p + |RunCodes(rs)|))
    decreases |rs|
  {
    var run := rs[0];
    AtSplit(data, p, RunCode(run), RunCodes(rs[1..]));
    RunCodeDecodes(data, p, run);
    DecodeStep(data, p, n, acc, run.count, run.value, p + |RunCode(run)|);
    if |rs| > 1 {
      ExpandLength(rs[1..]);
      RunCodesDecode(data, p + |RunCode(run)|, n, acc + Copies(run.value, run.count), rs[1..]);
      assert acc + Copies(run.value, run.count) + Expand(rs[1..]) == acc + Expand(rs);
    } else {
      assert Expand(rs[1..]) == [] && RunCodes(rs[1..]) == [];
      assert Expand(rs) == Copies(run.value, run.count);
    }
  }

  /** The octets some runs stand for are those of the first and then those
      of the rest. */
  lemma ExpandCons(rs: seq<Repeat>, first: seq<byte>, rest: seq<byte>)
    requires |rs| > 0 && Copies(rs[0].value, rs[0].count) == first && Expand(rs[1..]) == rest
    ensures Expand(rs) == first + rest
  {
  }

  /** The run at `i` stands for the octets it covers. */
  lemma RunCopies(line: seq<byte>, i: nat, next: nat)
    requires i < |line| && next == i + RunFrom(line, i, 0) + 1
    ensures next <= |line| && Copies(line[i], RunFrom(line, i, 0) + 1) == line[i..next]
  {
    RunIsMaximal(line, i);
  }

  /** A suffix of a sequence is its slice up to `b` and the suffix from `b`. */
  lemma SuffixSplit(s: seq<byte>, a: nat, b: nat)
    requires a <= b <= |s|
    ensures s[a..] == s[a..b] + s[b..]
  {
  }

  /** The runs `save` finds from `i` on stand for exactly the rest of the
      line. */
  lemma {:induction false} RunsFromExpand(line: seq<byte>, i: nat)
    requires i < |line|
    ensures Expand(RunsFrom(line, i)) == line[i..]
    decreases |line| - i
  {
    var next := i + RunFrom(line, i, 0) + 1;
    RunCopies(line, i, next);
    RunsFromSplit(line, i, next);
    if next < |line| {
      RunsFromExpand(line, next);
      ExpandCons(RunsFrom(line, i), line[i..next], line[next..]);
      SuffixSplit(line, i, next);
    } else {
      ExpandCons(RunsFrom(line, i), line[i..next], []);
    }
  }

  /** Wherever the code of a whole scanline sits, the decoder reads the
      scanline back and stops right after the code. */
  lemma LineAtDecodes(data: seq<byte>, p: int, line: seq<byte>, n: nat, code: seq<byte>)
    requires 0 < n == |line| && code == EncodedLine(line) && At(data, p, code)
    ensures DecodeLine(data, p, n, []) == Ok(Line(line, p + |code|))
  {
    var rs := RunsFrom(line, 0);
    RunsFromExpand(line, 0);
    assert [] + Expand(rs) == line by {
      assert line[0..] == line;
    }
    RunCodesDecode(data, p, n, [], rs);
    assert DecodeLine(data, p, n, []) == Ok(Line([] + Expand(rs), p + |RunCodes(rs)|));
    assert EncodedLine(line) == RunCodes(rs);
    assert Line([] + Expand(rs), p + |RunCodes(rs)|) == Line(line, p + |code|);
  }

  /** A scanline survives encoding and decoding unchanged, and the decoder
      consumes exactly the code. */
  lemma LineRoundTrip(line: seq<byte>)
    requires |line| > 0
    ensures DecodeLine(EncodedLine(line), 0, |line|, []) == Ok(Line(line, |EncodedLine(line)|))
  {
    AtBetween([], EncodedLine(line), []);
    assert [] + EncodedLine(line) + [] == EncodedLine(line);
    LineAtDecodes(EncodedLine(line), 0, line, |line|, EncodedLine(line));
  }

  /** Where the first `k` codes sit one after the other, the first `k - 1`
      sit there and code `k - 1` right after them. */
  lemma ConcatSplit(data: seq<byte>, p: int, codes: seq<seq<byte>>, k: nat)
    requires 0 < k <= |codes| && At(data, p, Concat(codes, k))
    ensures At(data, p, Concat(codes, k - 1)) && At(data, p + |Concat(codes, k - 1)|, codes[k - 1])
  {
    AtSplit(data, p, Concat(codes, k - 1), codes[k - 1]);
  }

  /** Some scanlines are of `n` octets each, and `codes` holds the code
      of each. */
  ghost predicate Coded(lines: seq<seq<byte>>, codes: seq<seq<byte>>, n: nat)
  {
    && 0 < n && |lines| == |codes|
    && forall y {:trigger EncodedLine(lines[y])} :: 0 <= y < |lines| ==> |lines[y]| == n && codes[y] == EncodedLine(lines[y])
  }

  /** Scanlines of `n` octets each are coded by their codes. */
  lemma LinesCoded(lines: seq<seq<byte>>, n: nat)
    requires 0 < n && forall y :: 0 <= y < |lines| ==> |lines[y]| == n
    ensures Coded(lines, LineCodes(lines), n)
  {
    var codes := LineCodes(lines);
    forall y | 0 <= y < |lines|
      ensures codes[y] == EncodedLine(lines[y])
    {
    }
  }

  /** Wherever the code of scanline `y` sits, the decoder reads the
      scanline back and stops right after the code. */
  lemma CodedLineDecodes(data: seq<byte>, p: int, lines: seq<seq<byte>>, codes: seq<seq<byte>>, n: nat, y: nat)
    requires Coded(lines, codes, n) && y < |lines| && At(data, p, codes[y])
    ensures DecodeLine(data, p, n, []) == Ok(Line(lines[y], p + |codes[y]|))
  {
    assert |lines[y]| == n && codes[y] == EncodedLine(lines[y]);
    LineAtDecodes(data, p, lines[y], n, codes[y]);
  }

  /** Each of the first `k` of some scanlines of `n` octets is what the
      decoder reads right after the codes of those before it. */
  ghost predicate LinesAt(data: seq<byte>, p: int, lines: seq<seq<byte>>, codes: seq<seq<byte>>, n: nat, k: nat)
    requires k <= |lines| == |codes|
  {
    k == 0
    || (&& LinesAt(data, p, lines, codes, n, k - 1)
        && DecodeLine(data, p + |Concat(codes, k - 1)|, n, [])
           == Ok(Line(lines[k - 1], p + |Concat(codes, k - 1)| + |codes[k - 1]|)))
  }

  /** Where the codes of some scanlines sit one after the other, each
      scanline is what the decoder reads right after the codes of those
      before it. */
  lemma {:induction false} CodedLinesAt(data: seq<byte>, p: int, lines: seq<seq<byte>>, codes: seq<seq<byte>>, n: nat, k: nat)
    requires Coded(lines, codes, n) && k <= |lines| && At(data, p, Concat(codes, k))
    ensures LinesAt(data, p, lines, codes, n, k)
  {
    if k > 0 {
      ConcatSplit(data, p, codes, k);
      CodedLinesAt(data, p, lines, codes, n, k - 1);
      CodedLineDecodes(data, p + |Concat(codes, k - 1)|, lines, codes, n, k - 1);
    }
  }

  /** The loader's row loop over such scanlines gives back the first `k`
      of them and stops after their codes. */
  lemma {:induction false} ScanDecodes(data: seq<byte>, p: int, lines: seq<seq<byte>>, codes: seq<seq<byte>>, n: nat, k: nat)
    requires k <= |lines| == |codes| && LinesAt(data, p, lines, codes, n, k)
    ensures DecodeLines(data, p, n, k) == Ok(Scan(lines[..k], p + |Concat(codes, k)|))
  {
    if k > 0 {
      ScanDecodes(data, p, lines, codes, n, k - 1);
      LinesStep(data, p, n, k, lines[..k - 1], p + |Concat(codes, k - 1)|, lines[k - 1],
                p + |Concat(codes, k - 1)| + |codes[k - 1]|);
      TakeSnoc(lines, k);
    }
  }

  /** Where the codes of some scanlines sit one after the other, the
      loader's row loop gives back all of them and stops after the codes. */
  lemma CodedScanDecodes(data: seq<byte>, p: int, lines: seq<seq<byte>>, codes: seq<seq<byte>>, n: nat, end: int)
    requires Coded(lines, codes, n) && At(data, p, Concat(codes, |lines|)) && end == p + |Concat(codes, |lines|)|
    ensures DecodeLines(data, p, n, |lines|) == Ok(Scan(lines, end))
  {
    CodedLinesAt(data, p, lines, codes, n, |lines|);
    ScanDecodes(data, p, lines, codes, n, |lines|);
    assert lines[..|lines|] == lines;
  }

  /** The first `k` elements are the first `k - 1` and then the `k`th. */
  lemma TakeSnoc(lines: seq<seq<byte>>, k: nat)
    requires 0 < k <= |lines|
    ensures lines[..k] == lines[..k - 1] + [lines[k - 1]]
  {
  }

  /** One pass of the loader's row loop: the next scanline is decoded where
      the previous ones end. */
  lemma LinesStep(data: seq<byte>, p: int, n: nat, k: nat, done: seq<seq<byte>>, mid: int, line: seq<byte>, end: int)
    requires k > 0 && DecodeLines(data, p, n, k - 1) == Ok(Scan(done, mid))
    requires DecodeLine(data, mid, n, []) == Ok(Line(line, end))
    ensures DecodeLines(data, p, n, k) == Ok(Scan(done + [line], end))
  {
  }
}
