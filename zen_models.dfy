/**
 * The scripts that keep the Zen models catalogue in eight secrets `ZEN_MODELS1` to
 * `ZEN_MODELS8`: reading the parts from a secret listing, the pull script that validates and
 * writes them back, and the update script that splits an edited catalogue into eight parts.
 * The listing, the edited text, JSON parsing and schema validation and the secret writes are
 * parameters or recorded values.
 */
module ZenModels {
  import opened Wrappers
  import opened Text

  const PartCount: nat := 8

  /** A secret write: `bun sst secret set <key> -- <value>`. */
  datatype Write = Write(key: string, value: string)

  /** The secret holding part `i` (0-based): `ZEN_MODELS<i + 1>`. */
  function Key(i: nat): string
    requires i < PartCount
  {
    "ZEN_MODELS" + [DigitChar(i + 1)]
  }

  lemma KeyShape(i: nat)
    requires i < PartCount
    ensures |Key(i)| == 11 && Key(i)[..10] == "ZEN_MODELS" && Key(i)[10] == DigitChar(i + 1)
    ensures NatToString(i + 1) == [DigitChar(i + 1)]
  {
  }

  /** `lines.find((line) => line.startsWith(prefix))`. */
  function FindLine(lines: seq<string>, prefix: string): (r: Option<nat>)
    ensures r.Some? ==> r.value < |lines| && StartsWith(lines[r.value], prefix)
    ensures r.Some? ==> forall j :: 0 <= j < r.value ==> !StartsWith(lines[j], prefix)
    ensures r.None? ==> forall j :: 0 <= j < |lines| ==> !StartsWith(lines[j], prefix)
  {
    if lines == [] then None
    else if StartsWith(lines[0], prefix) then Some(0)
    else match FindLine(lines[1..], prefix)
      case None => None
      case Some(j) => Some(j + 1)
  }

  /** The text after the first `=` of a line, empty when it has none. */
  function ValueOf(line: string): (r: string)
    ensures IndexOf(line, "=").None? ==> r == ""
    ensures IndexOf(line, "=").Some? ==> r == line[IndexOf(line, "=").value + 1..]
  {
    match IndexOf(line, "=")
    case None => ""
    case Some(i) => line[i + 1..]
  }

  /** That is `line.split("=").slice(1).join("=")`. */
  lemma ValueOfIsSplitJoin(line: string)
    ensures ValueOf(line) == AfterFirst(line, "=")
  {
  }

  /** The value of the first line starting with `prefix`, if there is such a line. */
  function LineValue(lines: seq<string>, prefix: string): (r: Option<string>)
    ensures r.None? <==> FindLine(lines, prefix).None?
    ensures r.Some? ==> r.value == ValueOf(lines[FindLine(lines, prefix).value])
  {
    match FindLine(lines, prefix)
    case None => None
    case Some(j) => Some(ValueOf(lines[j]))
  }

  /** Part `i` of the listing: its line's value; a missing line or an empty value is the `not found` error. */
  function ReadPart(lines: seq<string>, i: nat): (r: Result<string, string>)
    requires i < PartCount
    ensures r.Err? ==> r.error == Key(i) + " not found"
    ensures r.Ok? <==> LineValue(lines, Key(i)).Some? && LineValue(lines, Key(i)).value != ""
    ensures r.Ok? ==> r.value == LineValue(lines, Key(i)).value
  {
    match LineValue(lines, Key(i))
    case None => Err(Key(i) + " not found")
    case Some(v) => if v == "" then Err(Key(i) + " not found") else Ok(v)
  }

  /** The eight reads, one per part. */
  function Reads(lines: seq<string>): (rs: seq<Result<string, string>>)
    ensures |rs| == PartCount && forall k :: 0 <= k < PartCount ==> rs[k] == ReadPart(lines, k)
  {
    seq(PartCount, k requires 0 <= k < PartCount => ReadPart(lines, k))
  }

  /** The first failed read from `i` on. */
  function FirstErr(rs: seq<Result<string, string>>, i: nat): (r: Option<nat>)
    requires i <= |rs|
    ensures r.Some? ==> i <= r.value < |rs|
    decreases |rs| - i
  {
    if i == |rs| then None
    else if rs[i].Err? then Some(i)
    else FirstErr(rs, i + 1)
  }

  /** The scan finds nothing exactly when every read from `i` on succeeds, and otherwise the first that fails. */
  lemma {:induction false} FirstErrFirst(rs: seq<Result<string, string>>, i: nat)
    requires i <= |rs|
    ensures var r := FirstErr(rs, i);
      && (r.None? ==> forall k :: i <= k < |rs| ==> rs[k].Ok?)
      && (r.Some? ==> rs[r.value].Err? && forall k :: i <= k < r.value ==> rs[k].Ok?)
    decreases |rs| - i
  {
    if i < |rs| && rs[i].Ok? {
      FirstErrFirst(rs, i + 1);
    }
  }

  /** The eight parts, in order; the first part that cannot be read is the error. */
  function ReadParts(lines: seq<string>): (r: Result<seq<string>, string>)
    ensures r.Ok? <==> forall k :: 0 <= k < PartCount ==> ReadPart(lines, k).Ok?
    ensures r.Ok? ==> |r.value| == PartCount && forall k :: 0 <= k < PartCount ==> ReadPart(lines, k) == Ok(r.value[k])
    ensures r.Err? ==> exists k :: (0 <= k < PartCount && ReadPart(lines, k) == Err(r.error)
      && forall m :: 0 <= m < k ==> ReadPart(lines, m).Ok?)
  {
    var rs := Reads(lines);
    FirstErrFirst(rs, 0);
    match FirstErr(rs, 0)
    case Some(k) => Err(rs[k].error)
    case None => Ok(seq(PartCount, k requires 0 <= k < PartCount => rs[k].value))
  }

  /** Every part read back is non-empty. */
  lemma ReadPartsNonEmpty(lines: seq<string>)
    requires ReadParts(lines).Ok?
    ensures forall k :: 0 <= k < PartCount ==> ReadParts(lines).value[k] != ""
  {
    var vs := ReadParts(lines).value;
    forall k | 0 <= k < PartCount ensures vs[k] != "" {
      assert ReadPart(lines, k) == Ok(vs[k]);
    }
  }

  /** The loop writing each part to its secret, in order. */
  method WriteParts(values: seq<string>) returns (writes: seq<Write>)
    requires |values| == PartCount
    ensures |writes| == PartCount && forall i :: 0 <= i < PartCount ==> writes[i] == Write(Key(i), values[i])
  {
    writes := [];
    for i := 0 to PartCount
      invariant |writes| == i && forall k :: 0 <= k < i ==> writes[k] == Write(Key(k), values[k])
    {
      writes := writes + [Write(Key(i), values[i])];
    }
  }

  /**
   * `pull-models`: the stage is required; the eight parts are read, their concatenation must be
   * valid, and each part is written back to its own secret.
   */
  method PullModels(stage: Option<string>, lines: seq<string>, valid: string -> bool) returns (r: Result<seq<Write>, string>)
    ensures stage.None? || stage.value == "" ==> r == Err("Stage is required")
    ensures stage.Some? && stage.value != "" && ReadParts(lines).Err? ==> r == Err(ReadParts(lines).error)
    ensures stage.Some? && stage.value != "" && ReadParts(lines).Ok? ==>
      var values := ReadParts(lines).value;
      && (r.Ok? <==> valid(Join(values, "")))
      && (r.Ok? ==> (|r.value| == PartCount
        && forall i :: 0 <= i < PartCount ==> r.value[i] == Write(Key(i), ReadPart(lines, i).value)))
  {
    if stage.None? || stage.value == "" {
      return Err("Stage is required");
    }
    var read := ReadParts(lines);
    if read.Err? {
      return Err(read.error);
    }
    var values := read.value;
    if !valid(Join(values, "")) {
      return Err("invalid models");
    }
    var writes := WriteParts(values);
    return Ok(writes);
  }

  /** `s.slice(a, b)`: both ends clamped to the string, empty when they cross. */
  function Slice(s: string, a: nat, b: nat): (r: string)
    ensures a <= b <= |s| ==> r == s[a..b]
  {
    var a', b' := if a < |s| then a else |s|, if b < |s| then b else |s|;
    if a' >= b' then "" else s[a'..b']
  }

  /** `Math.ceil(len / 8)`. */
  function Chunk(len: nat): (r: nat)
    ensures r * PartCount >= len && (r == 0 || (r - 1) * PartCount < len)
  {
    (len + PartCount - 1) / PartCount
  }

  /** `chunk * i`. */
  function Start(len: nat, i: nat): nat {
    Chunk(len) * i
  }

  lemma StartStep(len: nat, i: nat)
    ensures Start(len, i + 1) == Start(len, i) + Chunk(len)
  {
  }

  /** The update script's split of the new value into eight slices of `chunk` characters, the last taking the rest. */
  function SplitParts(v: string): (r: seq<string>)
    ensures |r| == PartCount
    ensures forall i :: 0 <= i < PartCount - 1 ==> r[i] == Slice(v, Start(|v|, i), Start(|v|, i + 1))
    ensures r[PartCount - 1] == Slice(v, Start(|v|, PartCount - 1), |v|)
  {
    seq(PartCount, i requires 0 <= i < PartCount =>
      if i == PartCount - 1 then Slice(v, Start(|v|, i), |v|) else Slice(v, Start(|v|, i), Start(|v|, i + 1)))
  }

  /** Where part `i` starts once clamped to the value; bound eight is the end of the value. */
  function BoundAt(len: nat, i: nat): (r: nat)
    ensures r <= len
    ensures i == 0 ==> r == 0
  {
    if i >= PartCount then len else if Start(len, i) < len then Start(len, i) else len
  }

  lemma BoundAtMonotone(len: nat, i: nat, j: nat)
    requires i <= j
    ensures BoundAt(len, i) <= BoundAt(len, j)
  {
    MulMonotone(Chunk(len), i, j);
  }

  /** Part `i` is the value between bounds `i` and `i + 1`. */
  lemma PartAt(v: string, i: nat)
    requires i < PartCount
    ensures BoundAt(|v|, i) <= BoundAt(|v|, i + 1)
    ensures SplitParts(v)[i] == v[BoundAt(|v|, i)..BoundAt(|v|, i + 1)]
  {
    StartStep(|v|, i);
  }

  /** Slices between consecutive bounds join to the value from the first of those bounds. */
  lemma {:induction false} JoinSlices(v: string, parts: seq<string>, b: seq<nat>, k: nat)
    requires |b| == |parts| + 1 && k < |parts| && b[|parts|] == |v|
    requires forall i, j :: 0 <= i <= j < |b| ==> b[i] <= b[j]
    requires forall i :: 0 <= i < |parts| ==> parts[i] == v[b[i]..b[i + 1]]
    ensures Join(parts[k..], "") == v[b[k]..]
    decreases |parts| - k
  {
    if k == |parts| - 1 {
      assert parts[k..] == [parts[k]];
    } else {
      JoinSlices(v, parts, b, k + 1);
      var tail := parts[k..];
      assert tail[0] == parts[k] && tail[1..] == parts[k + 1..];
      assert Join(tail, "") == parts[k] + "" + Join(parts[k + 1..], "");
      assert v[b[k]..] == v[b[k]..b[k + 1]] + v[b[k + 1]..];
    }
  }

  /** Joining the eight parts gives back exactly the new value. */
  lemma SplitPartsJoin(v: string)
    ensures Join(SplitParts(v), "") == v
  {
    var parts := SplitParts(v);
    var b := seq(PartCount + 1, i requires 0 <= i <= PartCount => BoundAt(|v|, i));
    forall i, j | 0 <= i <= j < |b| ensures b[i] <= b[j] {
      BoundAtMonotone(|v|, i, j);
    }
    forall i | 0 <= i < |parts| ensures parts[i] == v[b[i]..b[i + 1]] {
      PartAt(v, i);
    }
    JoinSlices(v, parts, b, 0);
    assert parts[0..] == parts;
  }

  /**
   * `update-models`: the current parts must be readable and their concatenation must parse;
   * the edited value must be valid; it is then split into eight parts, each written to its secret.
   */
  method UpdateModels(lines: seq<string>, parses: string -> bool, newValue: string, valid: string -> bool)
    returns (r: Result<seq<Write>, string>)
    ensures ReadParts(lines).Err? ==> r == Err(ReadParts(lines).error)
    ensures r.Ok? <==> ReadParts(lines).Ok? && parses(Join(ReadParts(lines).value, "")) && valid(newValue)
    ensures r.Ok? ==> (|r.value| == PartCount
      && (forall i :: 0 <= i < PartCount ==> r.value[i] == Write(Key(i), SplitParts(newValue)[i]))
      && Join(Values(r.value), "") == newValue)
  {
    var read := ReadParts(lines);
    if read.Err? {
      return Err(read.error);
    }
    if !parses(Join(read.value, "")) {
      return Err("invalid JSON");
    }
    if !valid(newValue) {
      return Err("invalid models");
    }
    var newValues := SplitParts(newValue);
    var writes := WriteParts(newValues);
    assert Values(writes) == newValues;
    SplitPartsJoin(newValue);
    return Ok(writes);
  }

  function Values(writes: seq<Write>): (r: seq<string>)
    ensures |r| == |writes| && forall i :: 0 <= i < |writes| ==> r[i] == writes[i].value
  {
    seq(|writes|, i requires 0 <= i < |writes| => writes[i].value)
  }

  /** A listing with one `key=value` line per write, in order. */
  function Listing(writes: seq<Write>): (r: seq<string>)
    ensures |r| == |writes| && forall i :: 0 <= i < |writes| ==> r[i] == writes[i].key + "=" + writes[i].value
  {
    seq(|writes|, i requires 0 <= i < |writes| => writes[i].key + "=" + writes[i].value)
  }

  /** From 50 characters on every part is non-empty. */
  lemma PartsNonEmpty(v: string, i: nat)
    requires |v| >= 50 && i < PartCount
    ensures SplitParts(v)[i] != ""
  {
    var c := Chunk(|v|);
    assert c >= 7;
    assert 7 * c < |v| by {
      if c != 7 { assert (c - 1) * 8 < |v|; }
    }
    assert Start(|v|, i) <= Start(|v|, 7) by { MulMonotone(c, i, 7); }
    PartAt(v, i);
    StartStep(|v|, i);
    assert BoundAt(|v|, i) < BoundAt(|v|, i + 1);
  }

  lemma MulMonotone(c: nat, i: nat, j: nat)
    requires i <= j
    ensures c * i <= c * j
  {
  }

  /** A written part's line yields that part: its key names only its own line, and the value starts after the key's `=`. */
  lemma ReadWrittenPart(writes: seq<Write>, i: nat)
    requires |writes| == PartCount && i < PartCount
    requires forall k :: 0 <= k < PartCount ==> writes[k].key == Key(k)
    requires writes[i].value != ""
    ensures ReadPart(Listing(writes), i) == Ok(writes[i].value)
  {
    var lines := Listing(writes);
    forall k | 0 <= k < PartCount && k != i ensures !StartsWith(lines[k], Key(i)) {
      KeyShape(k);
      KeyShape(i);
      assert lines[k][10] == DigitChar(k + 1);
    }
    var line := lines[i];
    assert line[..11] == Key(i);
    var p := FindLine(lines, Key(i));
    assert p == Some(i);
    KeyShape(i);
    assert line[11] == '=';
    assert MatchesAt(line, "=", 11);
    forall j | 0 <= j < 11 ensures !MatchesAt(line, "=", j) {
      assert line[j..j + 1][0] == Key(i)[j];
    }
    assert IndexOf(line, "=") == Some(11);
    assert line[12..] == writes[i].value;
  }

  /** A listing of eight writes under their own keys, none of them empty, reads back as the written values. */
  lemma ReadListing(writes: seq<Write>)
    requires |writes| == PartCount
    requires forall k :: 0 <= k < PartCount ==> writes[k].key == Key(k) && writes[k].value != ""
    ensures ReadParts(Listing(writes)) == Ok(Values(writes))
  {
    var lines, values := Listing(writes), Values(writes);
    forall i | 0 <= i < PartCount ensures ReadPart(lines, i) == Ok(values[i]) {
      ReadWrittenPart(writes, i);
    }
    ReadAllParts(lines, values);
  }

  /** When every part reads as the given value, the listing reads as those values. */
  lemma ReadAllParts(lines: seq<string>, values: seq<string>)
    requires |values| == PartCount && forall i :: 0 <= i < PartCount ==> ReadPart(lines, i) == Ok(values[i])
    ensures ReadParts(lines) == Ok(values)
  {
    var rs := Reads(lines);
    FirstErrFirst(rs, 0);
    assert FirstErr(rs, 0).None?;
    var read := seq(PartCount, k requires 0 <= k < PartCount => rs[k].value);
    assert ReadParts(lines) == Ok(read);
    assert read == values;
  }

  /**
   * An update followed by a pull reads back the parts just written, and their concatenation is
   * the new value again, once the value has 50 characters or more (shorter values leave a part
   * empty, which the read rejects as `not found`).
   */
  lemma UpdateThenRead(v: string, writes: seq<Write>)
    requires |v| >= 50
    requires |writes| == PartCount && forall i :: 0 <= i < PartCount ==> writes[i] == Write(Key(i), SplitParts(v)[i])
    ensures Values(writes) == SplitParts(v)
    ensures ReadParts(Listing(writes)) == Ok(Values(writes))
    ensures Join(Values(writes), "") == v
  {
    WrittenParts(v, writes);
    SplitPartsJoin(v);
  }

  /** The update's writes carry the value's parts, none of them empty from 50 characters on. */
  lemma WrittenParts(v: string, writes: seq<Write>)
    requires |v| >= 50
    requires |writes| == PartCount && forall i :: 0 <= i < PartCount ==> writes[i] == Write(Key(i), SplitParts(v)[i])
    ensures Values(writes) == SplitParts(v)
    ensures ReadParts(Listing(writes)) == Ok(Values(writes))
  {
    forall i | 0 <= i < PartCount ensures writes[i].value != "" {
      PartsNonEmpty(v, i);
    }
    ReadListing(writes);
  }

  /** Below that, a short value may leave a part empty: nine characters fill only five parts. */
  lemma ShortValueLeavesEmptyPart()
    ensures SplitParts("123456789")[PartCount - 1] == ""
  {
    assert Chunk(9) == 2;
  }
}
