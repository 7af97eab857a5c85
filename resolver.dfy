/**
 Resolution of an operating mode from a frequency (QRG) and a named
 frequency-to-mode lookup table.

 The table has already been located and parsed: `tableExists` says whether the
 named table file is there, and `Content` is what its JSON held, either a
 list of range records or something that is not a list. A record's fields
 are optional, as `dict.get` returns `None` for a missing key.
 */
module Resolver {
  import opened Options

  /** One element of the table's JSON array. */
  datatype RangeItem = RangeItem(freqFrom: Option<int>, freqTo: Option<int>, mode: Option<string>)

  /** The parsed content of an existing table file. */
  datatype Content = NotAList | Ranges(items: seq<RangeItem>)

  /**
   The outcome of a resolution: a mode, no applicable mode (Python's `None`),
   or one of the two exceptions `QRGLookupTableDoesNotExist` and
   `QRGLookupTableInvalid`.
   */
  datatype Resolution = Mode(m: string) | NoMode | DoesNotExist | Invalid

  /** Python truthiness of an optional integer: absent and 0 are false. */
  predicate IntPresent(x: Option<int>) {
    x.Some? && x.value != 0
  }

  /** Python truthiness of an optional string: absent and "" are false. */
  predicate StrPresent(x: Option<string>) {
    x.Some? && x.value != ""
  }

  /** A record carries all three fields, each of them truthy. */
  predicate HasFields(item: RangeItem) {
    IntPresent(item.freqFrom) && IntPresent(item.freqTo) && StrPresent(item.mode)
  }

  /** A record that passes both validation checks of the scan. */
  predicate IsValidRange(item: RangeItem) {
    HasFields(item) && item.freqFrom.value <= item.freqTo.value
  }

  /** The half-open range [freq_from, freq_to) of a valid record contains `qrg`. */
  predicate Covers(item: RangeItem, qrg: int)
    requires IsValidRange(item)
  {
    item.freqFrom.value <= qrg < item.freqTo.value
  }

  /** The scan reaches `item` and moves on past it. */
  predicate PassesOver(item: RangeItem, qrg: int) {
    IsValidRange(item) && !Covers(item, qrg)
  }

  /** Every one of the first `k` records is valid and does not contain `qrg`. */
  ghost predicate ClearPrefix(items: seq<RangeItem>, k: nat, qrg: int)
    requires k <= |items|
  {
    forall j :: 0 <= j < k ==> PassesOver(items[j], qrg)
  }

  /**
   The scan of the records in order: each record is validated when it is
   reached, and the first one containing `qrg` decides. Records after the
   stopping point are never looked at.
   */
  function Scan(items: seq<RangeItem>, qrg: int): (r: Resolution)
    ensures r != DoesNotExist
    ensures r.Mode? ==> r.m != ""
  {
    if |items| == 0 then NoMode
    else if !HasFields(items[0]) then Invalid
    else if items[0].freqFrom.value > items[0].freqTo.value then Invalid
    else if Covers(items[0], qrg) then Mode(items[0].mode.value)
    else Scan(items[1..], qrg)
  }

  /** The whole resolution: existence check, list check, then the scan. */
  function Resolve(tableExists: bool, content: Content, qrg: int): Resolution {
    if !tableExists then DoesNotExist
    else match content
      case NotAList => Invalid
      case Ranges(items) => Scan(items, qrg)
  }

  /** The resolver as it runs: a loop over the records with an early exit. */
  method GetModeFromQrg(tableExists: bool, content: Content, qrg: int) returns (r: Resolution)
    ensures r == Resolve(tableExists, content, qrg)
  {
    if !tableExists {
      return DoesNotExist;
    }
    var resolvedMode: Option<string> := None;
    if content.NotAList? {
      return Invalid;
    }
    var ranges := content.items;
    var i := 0;
    while i < |ranges|
      invariant 0 <= i <= |ranges|
      invariant resolvedMode == None
      invariant Scan(ranges[i..], qrg) == Scan(ranges, qrg)
    {
      var rangeItem := ranges[i];
      var freqFrom, freqTo, mode := rangeItem.freqFrom, rangeItem.freqTo, rangeItem.mode;
      if !IntPresent(freqFrom) || !IntPresent(freqTo) || !StrPresent(mode) {
        return Invalid;
      }
      if freqFrom.value > freqTo.value {
        return Invalid;
      }
      if freqFrom.value <= qrg < freqTo.value {
        resolvedMode := mode;
        break;
      }
      assert ranges[i..][1..] == ranges[i + 1..];
      i := i + 1;
    }
    r := if resolvedMode.Some? then Mode(resolvedMode.value) else NoMode;
  }

  // ---------------------------------------------------------------------
  // Properties of the resolution
  // ---------------------------------------------------------------------

  /** A missing table yields DoesNotExist whatever the content: no record is examined. */
  lemma MissingTableExaminesNothing(c1: Content, c2: Content, qrg: int)
    ensures Resolve(false, c1, qrg) == DoesNotExist
    ensures Resolve(false, c1, qrg) == Resolve(false, c2, qrg)
  {
  }

  /** Content that is not a JSON array is invalid. */
  lemma NotAListIsInvalid(qrg: int)
    ensures Resolve(true, NotAList, qrg) == Invalid
  {
  }

  /** The first record that contains `qrg`, all earlier ones valid and clear of it, gives the mode. */
  lemma {:induction false} FirstCoverWins(items: seq<RangeItem>, k: nat, qrg: int)
    requires k < |items|
    requires ClearPrefix(items, k, qrg)
    requires IsValidRange(items[k]) && Covers(items[k], qrg)
    ensures Scan(items, qrg) == Mode(items[k].mode.value)
  {
    if k > 0 {
      assert PassesOver(items[0], qrg);
      assert ClearPrefix(items[1..], k - 1, qrg) by {
        forall j | 0 <= j < k - 1 ensures PassesOver(items[1..][j], qrg) {
          assert items[1..][j] == items[j + 1];
        }
      }
      FirstCoverWins(items[1..], k - 1, qrg);
    }
  }

  /** The first record that fails validation, all earlier ones valid and clear of `qrg`, makes the table invalid. */
  lemma {:induction false} FirstBadRangeRejects(items: seq<RangeItem>, k: nat, qrg: int)
    requires k < |items|
    requires ClearPrefix(items, k, qrg)
    requires !IsValidRange(items[k])
    ensures Scan(items, qrg) == Invalid
  {
    if k > 0 {
      assert PassesOver(items[0], qrg);
      assert ClearPrefix(items[1..], k - 1, qrg) by {
        forall j | 0 <= j < k - 1 ensures PassesOver(items[1..][j], qrg) {
          assert items[1..][j] == items[j + 1];
        }
      }
      FirstBadRangeRejects(items[1..], k - 1, qrg);
    }
  }

  /** Every record valid and none containing `qrg`: the result is no mode, not an error. */
  lemma {:induction false} NoCoverNoMode(items: seq<RangeItem>, qrg: int)
    requires ClearPrefix(items, |items|, qrg)
    ensures Scan(items, qrg) == NoMode
  {
    if |items| > 0 {
      assert PassesOver(items[0], qrg);
      assert ClearPrefix(items[1..], |items| - 1, qrg) by {
        forall j | 0 <= j < |items| - 1 ensures PassesOver(items[1..][j], qrg) {
          assert items[1..][j] == items[j + 1];
        }
      }
      NoCoverNoMode(items[1..], qrg);
    }
  }

  /**
   The converse of the three lemmas above: every result of the scan comes from
   a stopping point `k` before which every record is valid and clear of `qrg`.
   A mode is the mode of the record at `k`, which contains `qrg`; Invalid is a
   record at `k` that fails validation; no mode means no stopping point.
   */
  lemma {:induction false} ScanExplained(items: seq<RangeItem>, qrg: int) returns (k: nat)
    ensures k <= |items| && ClearPrefix(items, k, qrg)
    ensures Scan(items, qrg) == NoMode ==> k == |items|
    ensures Scan(items, qrg).Mode? ==>
      k < |items| && IsValidRange(items[k]) && Covers(items[k], qrg)
      && Scan(items, qrg).m == items[k].mode.value
    ensures Scan(items, qrg) == Invalid ==> k < |items| && !IsValidRange(items[k])
  {
    if |items| == 0 || !PassesOver(items[0], qrg) {
      k := 0;
    } else {
      var k' := ScanExplained(items[1..], qrg);
      k := k' + 1;
      forall j | 0 <= j < k ensures PassesOver(items[j], qrg) {
        if j > 0 {
          assert items[j] == items[1..][j - 1];
        }
      }
      if k < |items| {
        assert items[k] == items[1..][k'];
      }
    }
  }

  /**
   Records after the stopping point do not affect the result: appending
   records to a table that already yields a mode or Invalid changes nothing,
   and appending to a table that yields no mode resolves in the appendix.
   */
  lemma {:induction false} ScanAppend(items: seq<RangeItem>, rest: seq<RangeItem>, qrg: int)
    ensures Scan(items, qrg) != NoMode ==> Scan(items + rest, qrg) == Scan(items, qrg)
    ensures Scan(items, qrg) == NoMode ==> Scan(items + rest, qrg) == Scan(rest, qrg)
  {
    if |items| > 0 {
      assert (items + rest)[0] == items[0];
      assert (items + rest)[1..] == items[1..] + rest;
      ScanAppend(items[1..], rest, qrg);
    } else {
      assert items + rest == rest;
    }
  }

  /** A match is kept even when the table is invalid beyond it. */
  lemma InvalidBeyondMatchIgnored(items: seq<RangeItem>, bad: RangeItem, rest: seq<RangeItem>, qrg: int, m: string)
    requires Scan(items, qrg) == Mode(m)
    requires !IsValidRange(bad)
    ensures Resolve(true, Ranges(items + [bad] + rest), qrg) == Mode(m)
  {
    ScanAppend(items, [bad] + rest, qrg);
    assert items + [bad] + rest == items + ([bad] + rest);
  }

  /**
   A valid record that does not contain `qrg` can be dropped without changing
   the result, wherever it stands in the table.
   */
  lemma SkippedRecordIrrelevant(prefix: seq<RangeItem>, item: RangeItem, rest: seq<RangeItem>, qrg: int)
    requires PassesOver(item, qrg)
    ensures Scan(prefix + [item] + rest, qrg) == Scan(prefix + rest, qrg)
  {
    ScanAppend(prefix, [item] + rest, qrg);
    ScanAppend(prefix, rest, qrg);
    assert prefix + [item] + rest == prefix + ([item] + rest);
    assert ([item] + rest)[1..] == rest;
  }

  /**
   Ranges are half-open: a valid record never matches its own upper bound,
   and a valid record whose two bounds are equal never matches at all; in both
   cases resolution proceeds as if the record were not there.
   */
  lemma HalfOpenRange(prefix: seq<RangeItem>, item: RangeItem, rest: seq<RangeItem>, qrg: int)
    requires IsValidRange(item)
    requires qrg == item.freqTo.value || item.freqFrom == item.freqTo
    ensures !Covers(item, qrg)
    ensures Scan(prefix + [item] + rest, qrg) == Scan(prefix + rest, qrg)
  {
    SkippedRecordIrrelevant(prefix, item, rest, qrg);
  }

  /** Examples: adjacent half-open ranges, and a table with a single range. */
  lemma Examples()
    ensures var t := Ranges([RangeItem(Some(100), Some(200), Some("A")), RangeItem(Some(200), Some(300), Some("B"))]);
      Resolve(true, t, 199) == Mode("A") && Resolve(true, t, 200) == Mode("B") && Resolve(true, t, 300) == NoMode
    ensures Resolve(true, Ranges([RangeItem(Some(14000), Some(14350), Some("USB"))]), 14200) == Mode("USB")
    ensures Resolve(true, Ranges([RangeItem(Some(0), Some(14350), Some("USB"))]), 14200) == Invalid
    ensures Resolve(true, Ranges([RangeItem(Some(300), Some(200), Some("B"))]), 250) == Invalid
  {
  }
}
