/**
 * The disk inventory: one record per disk store the hardware layer reports, its readings
 * copied as they are, plus a drive type guessed from the model name: `"SSD"` when the
 * lower-cased model mentions `ssd`, `"HDD"` otherwise.
 */
module DiskInfo {
  import opened JavaText

  /** What the hardware layer reports for one disk store. */
  datatype DiskStore = DiskStore(
    name: string,
    model: string,
    serial: string,
    size: int,
    readCount: int,
    writeCount: int,
    transferTime: int)

  /** The record built for one disk: the store's readings and the guessed type. */
  datatype DiskRecord = DiskRecord(
    name: string,
    model: string,
    serial: string,
    sizeBytes: int,
    readCount: int,
    writeCount: int,
    transferTime: int,
    kind: string)

  const Ssd := "SSD"
  const Hdd := "HDD"

  /** `model.toLowerCase().contains("ssd") ? "SSD" : "HDD"`. */
  function DiskType(model: string): (kind: string)
    ensures kind == Ssd || kind == Hdd
  {
    if Contains(ToLower(model), "ssd") then Ssd else Hdd
  }

  function RecordOf(d: DiskStore): DiskRecord {
    DiskRecord(d.name, d.model, d.serial, d.size, d.readCount, d.writeCount, d.transferTime, DiskType(d.model))
  }

  // ---------------------------------------------------------------- drive type

  /** `s`, `d` in either case. */
  predicate IsS(c: char) { c == 's' || c == 'S' }
  predicate IsD(c: char) { c == 'd' || c == 'D' }

  /** The model spells `ssd`, in any mixture of cases, starting at offset `i`. */
  predicate SsdAt(model: string, i: int) {
    0 <= i && i + 3 <= |model| && IsS(model[i]) && IsS(model[i + 1]) && IsD(model[i + 2])
  }

  lemma {:induction false} LowerMatchesAt(model: string, i: int)
    ensures OccursAt(ToLower(model), "ssd", i) <==> SsdAt(model, i)
  {
    if 0 <= i && i + 3 <= |model| {
      var w := ToLower(model)[i..i + 3];
      assert w[0] == ToLowerChar(model[i]) && w[1] == ToLowerChar(model[i + 1]) && w[2] == ToLowerChar(model[i + 2]);
      if SsdAt(model, i) {
        assert w == "ssd";
      }
    }
  }

  /**
   * The type is always one of the two labels, and it is `"SSD"` exactly when the model spells
   * `ssd` somewhere, whatever the case of each of the three letters.
   */
  lemma {:induction false} DiskTypeIffSsdAnyCase(model: string)
    ensures DiskType(model) == Ssd || DiskType(model) == Hdd
    ensures DiskType(model) == Ssd <==> exists i :: SsdAt(model, i)
  {
    ContainsIffOccurs(ToLower(model), "ssd");
    forall i
      ensures OccursAt(ToLower(model), "ssd", i) <==> SsdAt(model, i)
    {
      LowerMatchesAt(model, i);
    }
  }

  /** Changing the case of the model never changes the type. */
  lemma {:induction false} LowerCasingKeepsType(model: string)
    ensures DiskType(ToLower(model)) == DiskType(model)
  {
    assert ToLower(ToLower(model)) == ToLower(model);
  }

  /** A Samsung solid-state model is typed `"SSD"`. */
  lemma {:induction false} SamsungIsSsd(model: string)
    requires model == "Samsung SSD 970 EVO"
    ensures DiskType(model) == Ssd
  {
    assert SsdAt(model, 8);
    DiskTypeIffSsdAnyCase(model);
  }

  /** Mixed case inside a longer word still counts. */
  lemma {:induction false} MixedCaseIsSsd(model: string)
    requires model == "fooSsDbar"
    ensures DiskType(model) == Ssd
  {
    assert SsdAt(model, 3);
    DiskTypeIffSsdAnyCase(model);
  }

  /** A model without any `s` is typed `"HDD"`. */
  lemma {:induction false} NoSMeansHdd(model: string)
    requires forall k :: 0 <= k < |model| ==> !IsS(model[k])
    ensures DiskType(model) == Hdd
  {
    DiskTypeIffSsdAnyCase(model);
  }

  // ---------------------------------------------------------------- getData

  /** `getData`: one record per disk store, in the order the stores are reported. */
  method GetData(stores: seq<DiskStore>) returns (disks: seq<DiskRecord>)
    ensures |disks| == |stores|
    ensures forall k :: 0 <= k < |stores| ==>
              var d := disks[k]; var s := stores[k];
              d.name == s.name && d.model == s.model && d.serial == s.serial &&
              d.sizeBytes == s.size && d.readCount == s.readCount && d.writeCount == s.writeCount &&
              d.transferTime == s.transferTime && d.kind == DiskType(s.model)
  {
    disks := [];
    var i := 0;
    while i < |stores|
      invariant 0 <= i <= |stores|
      invariant |disks| == i
      invariant forall k :: 0 <= k < i ==> disks[k] == RecordOf(stores[k])
    {
      var s := stores[i];
      var kind := if Contains(ToLower(s.model), "ssd") then Ssd else Hdd;
      disks := disks + [DiskRecord(s.name, s.model, s.serial, s.size, s.readCount, s.writeCount, s.transferTime, kind)];
      i := i + 1;
    }
  }
}
