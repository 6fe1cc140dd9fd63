/** The quality picker `formats` and the size sum `parse_size`
    (SHUKLAMUSIC/platforms/Youtube.py:117-122, 333-370). A format record of
    the engine is a dictionary, modelled as a map from key to value. */
module Formats {
  import opened Optional
  import opened Text
  import opened Decimal
  import opened VideoIds

  /** The JSON-like values a format record holds. */
  datatype Value = Null | Str(s: string) | Int(n: int)

  type Record = map<string, Value>

  /** `fmt.get(key)`: a missing key reads as `None`. */
  function Get(m: Record, key: string): (v: Value)
    ensures key !in m ==> v == Null
    ensures key in m ==> v == m[key]
  {
    if key in m then m[key] else Null
  }

  /** Python's `str(v)`. */
  function Render(v: Value): string {
    match v
    case Null => "None"
    case Str(s) => s
    case Int(n) => IntToString(n)
  }

  /** The keys a kept record must have; their values may be `None`. */
  const NeededKeys: seq<string> := ["format", "filesize", "format_id", "ext", "format_note"]

  predicate HasNeededKeys(m: Record) {
    forall k :: 0 <= k < |NeededKeys| ==> NeededKeys[k] in m
  }

  /** `"dash" in str(fmt.get("format")).lower()`. */
  predicate IsDash(m: Record) {
    Contains(LowerAscii(Render(Get(m, "format"))), "dash")
  }

  /** The records the loop keeps. */
  predicate Keep(m: Record) {
    !IsDash(m) && HasNeededKeys(m)
  }

  /** One entry of the returned list: the five values copied, plus the URL. */
  datatype Entry = Entry(format: Value, filesize: Value, formatId: Value, ext: Value, formatNote: Value, yturl: string)

  function ToEntry(m: Record, norm: string): (e: Entry)
    requires HasNeededKeys(m)
  {
    assert NeededKeys[0] in m && NeededKeys[1] in m && NeededKeys[2] in m
      && NeededKeys[3] in m && NeededKeys[4] in m;
    Entry(m["format"], m["filesize"], m["format_id"], m["ext"], m["format_note"], norm)
  }

  /** The formats loop (lines 349-369): keeps, in order, every record that is
      not a DASH format and has all five keys. `picked` lists the positions
      of the kept records. */
  method SelectFormats(fmts: seq<Record>, norm: string) returns (kept: seq<Entry>, picked: seq<nat>)
    ensures |kept| == |picked|
    ensures forall k :: 0 <= k < |picked| ==>
              picked[k] < |fmts| && Keep(fmts[picked[k]]) && kept[k] == ToEntry(fmts[picked[k]], norm)
    ensures forall k, l :: 0 <= k < l < |picked| ==> picked[k] < picked[l]
    ensures forall i :: 0 <= i < |fmts| && Keep(fmts[i]) ==> i in picked
    ensures forall k :: 0 <= k < |kept| ==> kept[k].yturl == norm && !Contains(LowerAscii(Render(kept[k].format)), "dash")
  {
    picked := PickKept(fmts);
    kept := seq(|picked|, k requires 0 <= k < |picked| => ToEntry(fmts[picked[k]], norm));
    forall k | 0 <= k < |kept|
      ensures kept[k].yturl == norm && !Contains(LowerAscii(Render(kept[k].format)), "dash")
    {
      KeptEntry(fmts[picked[k]], norm);
    }
  }

  /** The positions, in increasing order, of exactly the records to keep. */
  method PickKept(fmts: seq<Record>) returns (picked: seq<nat>)
    ensures forall k :: 0 <= k < |picked| ==> picked[k] < |fmts| && Keep(fmts[picked[k]])
    ensures forall k, l :: 0 <= k < l < |picked| ==> picked[k] < picked[l]
    ensures forall i :: 0 <= i < |fmts| && Keep(fmts[i]) ==> i in picked
  {
    var keep := seq(|fmts|, i requires 0 <= i < |fmts| => Keep(fmts[i]));
    picked := PickTrue(keep);
  }

  /** The positions, in increasing order, of exactly the set flags. */
  method PickTrue(flags: seq<bool>) returns (picked: seq<nat>)
    ensures forall k :: 0 <= k < |picked| ==> picked[k] < |flags| && flags[picked[k]]
    ensures forall k, l :: 0 <= k < l < |picked| ==> picked[k] < picked[l]
    ensures forall i :: 0 <= i < |flags| && flags[i] ==> i in picked
  {
    picked := [];
    var i := 0;
    while i < |flags|
      invariant 0 <= i <= |flags|
      invariant forall k :: 0 <= k < |picked| ==> picked[k] < i && flags[picked[k]]
      invariant forall k, l :: 0 <= k < l < |picked| ==> picked[k] < picked[l]
      invariant forall j :: 0 <= j < i && flags[j] ==> j in picked
    {
      if flags[i] {
        picked := picked + [i];
      }
      i := i + 1;
    }
  }

  /** A kept record's entry carries the URL and a format that is not DASH. */
  lemma KeptEntry(m: Record, norm: string)
    requires Keep(m)
    ensures ToEntry(m, norm).yturl == norm
    ensures !Contains(LowerAscii(Render(ToEntry(m, norm).format)), "dash")
  {
    assert NeededKeys[0] == "format";
  }

  /** `formats`: `([], link)` for an invalid reference, else the entries
      of exactly the kept records, in order, and the normalised URL.
      `picked` names the positions of the records the entries come from. */
  method GetFormats(link: string, videoid: bool, fmts: seq<Record>)
    returns (entries: seq<Entry>, url: string, ghost picked: seq<nat>)
    ensures NormalizeWatchUrl(ResolveLink(link, videoid)).None? ==>
              entries == [] && url == ResolveLink(link, videoid)
    ensures NormalizeWatchUrl(ResolveLink(link, videoid)).Some? ==>
              && url == NormalizeWatchUrl(ResolveLink(link, videoid)).value
              && |entries| == |picked| <= |fmts|
              && (forall k :: 0 <= k < |picked| ==>
                    picked[k] < |fmts| && Keep(fmts[picked[k]]) && entries[k] == ToEntry(fmts[picked[k]], url))
              && (forall k, l :: 0 <= k < l < |picked| ==> picked[k] < picked[l])
              && (forall i :: 0 <= i < |fmts| && Keep(fmts[i]) ==> i in picked)
              && (forall k :: 0 <= k < |entries| ==> entries[k].yturl == url)
  {
    var l := ResolveLink(link, videoid);
    match NormalizeWatchUrl(l)
    case None =>
      entries, url, picked := [], l, [];
    case Some(norm) =>
      entries, picked := SelectFormats(fmts, norm);
      PickedFit(picked, |fmts|);
      url := norm;
  }

  /** Strictly increasing positions below `n` are at most `n` many. */
  lemma {:induction false} PickedFit(picked: seq<nat>, n: nat)
    requires forall k :: 0 <= k < |picked| ==> picked[k] < n
    requires forall k, l :: 0 <= k < l < |picked| ==> picked[k] < picked[l]
    ensures |picked| <= n
    decreases n
  {
    if |picked| > 0 {
      var init := picked[..|picked| - 1];
      assert forall k :: 0 <= k < |init| ==> init[k] < picked[|picked| - 1];
      PickedFit(init, picked[|picked| - 1]);
    }
  }

  /** `int + v` for a `filesize` value: only integers add. */
  datatype SizeError = TypeError

  /** The contribution of one record to `parse_size`. */
  function SizeOf(m: Record): Result<int, SizeError> {
    if "filesize" !in m then Ok(0)
    else match m["filesize"]
      case Int(n) => Ok(n)
      case _ => Err(TypeError)
  }

  /** A record whose `filesize` key holds something other than an integer. */
  predicate BadSize(m: Record) {
    "filesize" in m && !m["filesize"].Int?
  }

  /** The sum of the integer `filesize` values. */
  function SumSizes(fmts: seq<Record>): int
    decreases |fmts|
  {
    if |fmts| == 0 then 0
    else (if "filesize" in fmts[0] && fmts[0]["filesize"].Int? then fmts[0]["filesize"].n else 0) + SumSizes(fmts[1..])
  }

  /** `parse_size`: the running total; adding a non-integer raises `TypeError`. */
  function ParseSize(fmts: seq<Record>): (r: Result<int, SizeError>)
    ensures r.Err? <==> exists i :: 0 <= i < |fmts| && BadSize(fmts[i])
    ensures r.Ok? ==> r.value == SumSizes(fmts)
    decreases |fmts|
  {
    if |fmts| == 0 then Ok(0)
    else
      match SizeOf(fmts[0])
      case Err(e) => Err(e)
      case Ok(n) =>
        match ParseSize(fmts[1..])
        case Err(e) =>
          Err(e)
        case Ok(t) => Ok(n + t)
  }

  /** The total over a concatenation is the sum of the totals, and an error
      in either part is an error of the whole. */
  lemma {:induction false} ParseSizeConcat(a: seq<Record>, b: seq<Record>)
    ensures ParseSize(a + b).Err? <==> ParseSize(a).Err? || ParseSize(b).Err?
    ensures ParseSize(a + b).Ok? ==> ParseSize(a + b).value == ParseSize(a).value + ParseSize(b).value
    decreases |a|
  {
    if |a| == 0 {
      assert a + b == b;
    } else {
      assert (a + b)[0] == a[0];
      assert (a + b)[1..] == a[1..] + b;
      ParseSizeConcat(a[1..], b);
    }
  }

  /** Records without a `filesize` key add nothing. */
  lemma {:induction false} SizelessAddNothing(fmts: seq<Record>)
    requires forall i :: 0 <= i < |fmts| ==> "filesize" !in fmts[i]
    ensures ParseSize(fmts) == Ok(0)
    decreases |fmts|
  {
    if |fmts| > 0 {
      SizelessAddNothing(fmts[1..]);
    }
  }

  /** `check_file_size` after the engine call: `None` when the call failed
      (`info` is `None`) or the format list is empty, else `parse_size`. */
  function CheckFileSize(info: Option<seq<Record>>): (r: Option<Result<int, SizeError>>)
    ensures r.Some? <==> info.Some? && |info.value| > 0
    ensures r.Some? ==> r.value == ParseSize(info.value)
  {
    match info
    case None => None
    case Some(fmts) => if |fmts| == 0 then None else Some(ParseSize(fmts))
  }
}
