/** The sizes of units relative to each other. */
module UnitSizes {
  import opened Units

  /** One of the second is so many of the first. */
  ghost predicate Holds(small: string, k: real, large: string)
  {
    AreCompatible(large, small) && forall x :: Convert(x, large, small) == k * x
  }

  /** Each but the first is so many of the one before. */
  ghost predicate Steps(k: real, names: seq<string>)
  {
    forall i :: 0 <= i < |names| - 1 ==> Holds(names[i], k, names[i + 1])
  }

  lemma StepsBySize(f: Family, k: real, names: seq<string>)
    requires f != Unscaled && (forall u :: u in names ==> u != "" && FamilyOf(u) == f)
    requires forall i :: 0 <= i < |names| - 1 ==> Factor(f, names[i + 1]) == k * Factor(f, names[i])
    ensures Steps(k, names)
  {
    hide FamilyOf, Factor, Holds;
    forall i | 0 <= i < |names| - 1 ensures Holds(names[i], k, names[i + 1]) {
      HoldsBySize(f, names[i], k, names[i + 1]);
    }
  }

  lemma HoldsBySize(f: Family, small: string, k: real, large: string)
    requires f != Unscaled && FamilyOf(small) == f && FamilyOf(large) == f && small != "" && large != ""
    requires Factor(f, large) == k * Factor(f, small)
    ensures Holds(small, k, large)
  {
    hide FamilyOf, Factor;
    forall x: real ensures Convert(x, large, small) == k * x {
      Rescaled(x, k, Factor(f, small));
    }
  }

  lemma RatesAreOneFamily(u: string)
    requires IsDataRate(u)
    ensures FamilyOf(u) == DataRate && u != ""
  {
  }

  lemma StepsByRate(k: real, names: seq<string>)
    requires forall u :: u in names ==> IsDataRate(u)
    requires forall i :: 0 <= i < |names| - 1 ==> DataRateFactor(names[i + 1]) == k * DataRateFactor(names[i])
    ensures Steps(k, names)
  {
    hide FamilyOf, IsDataRate, DataRateFactor, Steps;
    forall u | u in names ensures FamilyOf(u) == DataRate && u != "" {
      RatesAreOneFamily(u);
    }
    StepsBySize(DataRate, k, names);
  }

  lemma Rescaled(x: real, k: real, size: real)
    requires size > 0.0
    ensures x * (k * size) / size == k * x
  {
    assert x * (k * size) == (k * x) * size;
  }

  /** Times, from nanoseconds to weeks. */
  lemma Times()
    ensures Steps(1000.0, ["ns", "us", "ms", "s"])
    ensures Steps(60.0, ["s", "m", "h"])
    ensures Steps(24.0, ["h", "d"])
    ensures Steps(7.0, ["d", "w"])
    ensures Steps(1.0, ["us", "\U{00B5}s"])
    ensures Steps(1.0, ["m", "min"])
    ensures Steps(1.0, ["w", "wk"])
  {
    hide Steps;
    StepsBySize(Duration, 1000.0, ["ns", "us", "ms", "s"]);
    StepsBySize(Duration, 60.0, ["s", "m", "h"]);
    StepsBySize(Duration, 24.0, ["h", "d"]);
    StepsBySize(Duration, 7.0, ["d", "w"]);
    StepsBySize(Duration, 1.0, ["us", "\U{00B5}s"]);
    StepsBySize(Duration, 1.0, ["m", "min"]);
    StepsBySize(Duration, 1.0, ["w", "wk"]);
  }

  /** Eight bits are a byte; prefixes step by a thousand or, when binary, by 1024. */
  lemma Bytes()
    ensures Steps(8.0, ["bit", "By"])
    ensures Steps(1000.0, ["By", "kBy", "MBy", "GBy", "TBy", "PBy", "EBy", "ZBy", "YBy"])
  {
    hide Steps;
    StepsBySize(Data, 8.0, ["bit", "By"]);
    StepsBySize(Data, 1000.0, ["By", "kBy", "MBy", "GBy", "TBy", "PBy", "EBy", "ZBy", "YBy"]);
  }

  lemma BinaryBytes()
    ensures Steps(1024.0, ["By", "KiBy", "MiBy", "GiBy", "TiBy", "PiBy", "EiBy", "ZiBy", "YiBy"])
  {
    hide Steps;
    StepsBySize(Data, 1024.0, ["By", "KiBy", "MiBy", "GiBy", "TiBy", "PiBy", "EiBy", "ZiBy", "YiBy"]);
  }

  lemma Bits()
    ensures Steps(1000.0, ["bit", "kbit", "Mbit", "Gbit", "Tbit", "Pbit", "Ebit", "Zbit", "Ybit"])
  {
    hide Steps;
    StepsBySize(Data, 1000.0, ["bit", "kbit", "Mbit", "Gbit", "Tbit", "Pbit", "Ebit", "Zbit", "Ybit"]);
  }

  lemma BinaryBits()
    ensures Steps(1024.0, ["bit", "Kibit", "Mibit", "Gibit", "Tibit", "Pibit"])
  {
    hide Steps;
    StepsBySize(Data, 1024.0, ["bit", "Kibit", "Mibit", "Gibit", "Tibit", "Pibit"]);
  }

  /** Older names of the same sizes. */
  lemma DataNames()
    ensures Steps(1.0, ["By", "bytes", "decbytes"])
    ensures Steps(1.0, ["bit", "bits", "decbits"])
    ensures Steps(1024.0, ["bytes", "kbytes", "mbytes", "gbytes", "tbytes", "pbytes"])
  {
    hide Steps;
    StepsBySize(Data, 1.0, ["By", "bytes", "decbytes"]);
    StepsBySize(Data, 1.0, ["bit", "bits", "decbits"]);
    StepsBySize(Data, 1024.0, ["bytes", "kbytes", "mbytes", "gbytes", "tbytes", "pbytes"]);
  }

  lemma DecimalDataNames()
    ensures Steps(1000.0, ["decbytes", "decKbytes", "decMbytes", "decGbytes", "decTbytes", "decPbytes"])
    ensures Steps(1000.0, ["decbytes", "deckbytes", "decmbytes", "decgbytes", "dectbytes", "decpbytes"])
  {
    hide Steps;
    StepsBySize(Data, 1000.0, ["decbytes", "decKbytes", "decMbytes", "decGbytes", "decTbytes", "decPbytes"]);
    StepsBySize(Data, 1000.0, ["decbytes", "deckbytes", "decmbytes", "decgbytes", "dectbytes", "decpbytes"]);
  }

  /** Rates step as the data they carry. */
  lemma ByteRates()
    ensures Steps(8.0, ["bit/s", "By/s"])
    ensures Steps(1000.0, ["By/s", "kBy/s", "MBy/s", "GBy/s", "TBy/s", "PBy/s", "EBy/s", "ZBy/s", "YBy/s"])
  {
    hide Steps, FamilyOf, Factor;
    StepsByRate(8.0, ["bit/s", "By/s"]);
    StepsByRate(1000.0, ["By/s", "kBy/s", "MBy/s", "GBy/s", "TBy/s", "PBy/s", "EBy/s", "ZBy/s", "YBy/s"]);
  }

  lemma BinaryByteRates()
    ensures Steps(1024.0, ["By/s", "KiBy/s", "MiBy/s", "GiBy/s", "TiBy/s"])
  {
    hide Steps, FamilyOf, Factor;
    StepsByRate(1024.0, ["By/s", "KiBy/s", "MiBy/s", "GiBy/s", "TiBy/s"]);
  }

  lemma LargeBinaryByteRates()
    ensures Steps(1024.0, ["TiBy/s", "PiBy/s", "EiBy/s", "ZiBy/s", "YiBy/s"])
  {
    hide Steps, FamilyOf, Factor;
    StepsByRate(1024.0, ["TiBy/s", "PiBy/s", "EiBy/s", "ZiBy/s", "YiBy/s"]);
  }

  lemma BitRates()
    ensures Steps(1000.0, ["bit/s", "kbit/s", "Mbit/s", "Gbit/s", "Tbit/s"])
  {
    hide Steps, FamilyOf, Factor;
    StepsByRate(1000.0, ["bit/s", "kbit/s", "Mbit/s", "Gbit/s", "Tbit/s"]);
  }

  lemma LargeBitRates()
    ensures Steps(1000.0, ["Tbit/s", "Pbit/s", "Ebit/s", "Zbit/s", "Ybit/s"])
  {
    hide Steps, FamilyOf, Factor;
    StepsByRate(1000.0, ["Tbit/s", "Pbit/s", "Ebit/s", "Zbit/s", "Ybit/s"]);
  }

  lemma BinaryBitRates()
    ensures Steps(1024.0, ["bit/s", "Kibit/s", "Mibit/s", "Gibit/s", "Tibit/s"])
  {
    hide Steps, FamilyOf, Factor;
    StepsByRate(1024.0, ["bit/s", "Kibit/s", "Mibit/s", "Gibit/s", "Tibit/s"]);
  }

  lemma LargeBinaryBitRates()
    ensures Steps(1024.0, ["Tibit/s", "Pibit/s", "Eibit/s", "Zibit/s", "Yibit/s"])
  {
    hide Steps, FamilyOf, Factor;
    StepsByRate(1024.0, ["Tibit/s", "Pibit/s", "Eibit/s", "Zibit/s", "Yibit/s"]);
  }

  /** Older names of the same rates. */
  lemma ByteRateNames()
    ensures Steps(1.0, ["By/s", "Bps", "binBps"])
    ensures Steps(1000.0, ["Bps", "KBs", "MBs", "GBs", "TBs", "PBs"])
    ensures Steps(1024.0, ["binBps", "KiBs", "MiBs", "GiBs", "TiBs", "PiBs"])
  {
    hide Steps, FamilyOf, Factor;
    StepsByRate(1.0, ["By/s", "Bps", "binBps"]);
    StepsByRate(1000.0, ["Bps", "KBs", "MBs", "GBs", "TBs", "PBs"]);
    StepsByRate(1024.0, ["binBps", "KiBs", "MiBs", "GiBs", "TiBs", "PiBs"]);
  }

  lemma BitRateNames()
    ensures Steps(1.0, ["bit/s", "bps", "binbps"])
    ensures Steps(1000.0, ["bps", "Kbits", "Mbits", "Gbits", "Tbits", "Pbits"])
  {
    hide Steps, FamilyOf, Factor;
    StepsByRate(1.0, ["bit/s", "bps", "binbps"]);
    StepsByRate(1000.0, ["bps", "Kbits", "Mbits", "Gbits", "Tbits", "Pbits"]);
  }

  lemma BinaryBitRateNames()
    ensures Steps(1024.0, ["binbps", "Kibits", "Mibits", "Gibits", "Tibits", "Pibits"])
  {
    hide Steps, FamilyOf, Factor;
    StepsByRate(1024.0, ["binbps", "Kibits", "Mibits", "Gibits", "Tibits", "Pibits"]);
  }

  /** A unit is a hundred percent. */
  lemma Percents()
    ensures Steps(100.0, ["percent", "percentunit"])
    ensures Steps(1.0, ["percent", "%"])
  {
    hide Steps;
    StepsBySize(Percent, 100.0, ["percent", "percentunit"]);
    StepsBySize(Percent, 1.0, ["percent", "%"]);
  }

  // ----- families -----

  predicate CountsEvents(u: string)
  {
    u in {
      "cps", "ops", "reqps", "rps", "wps", "iops", "cpm", "opm", "rpm", "wpm", "{count}/s", "{ops}/s", "{req}/s",
      "{read}/s", "{write}/s", "{iops}/s", "{count}/min", "{ops}/min", "{read}/min", "{write}/min"
    }
  }

  predicate IsTruthName(u: string) { u in {"bool", "bool_yes_no", "bool_true_false", "bool_1_0"} }

  lemma CountsAreThroughput(u: string)
    requires CountsEvents(u)
    ensures FamilyOf(u) == Throughput
  {
  }

  lemma TruthNamesAreBoolean(u: string)
    requires IsTruthName(u)
    ensures FamilyOf(u) == Boolean
  {
  }

  /** Throughputs are one family and truth values another; neither rescales anything, not even a
      count per minute read as one per second. */
  lemma PlainFamilies(x: real, from: string, to: string)
    requires (CountsEvents(from) && CountsEvents(to)) || (IsTruthName(from) && IsTruthName(to))
    ensures AreCompatible(from, to) && Convert(x, from, to) == x
  {
    if CountsEvents(from) && CountsEvents(to) {
      CountsAreThroughput(from);
      CountsAreThroughput(to);
    } else {
      TruthNamesAreBoolean(from);
      TruthNamesAreBoolean(to);
    }
    hide FamilyOf, CountsEvents, IsTruthName;
  }

  lemma NamedFamilies()
    ensures FamilyOf("s") == Duration && FamilyOf("bit") == Data && FamilyOf("bit/s") == DataRate
    ensures FamilyOf("percent") == Percent && FamilyOf("bool") == Boolean && FamilyOf("cps") == Throughput
  {
  }

  /** Nothing converts between families. */
  lemma FamiliesAreSeparate(a: string, b: string)
    requires a in {"s", "bit", "bit/s", "percent", "bool", "cps"} && b in {"s", "bit", "bit/s", "percent", "bool", "cps"}
    ensures AreCompatible(a, b) <==> a == b
  {
    NamedFamilies();
    hide FamilyOf;
  }

  /** A unit of no family converts to itself only. */
  lemma UnknownUnits(u: string, v: string)
    requires forall k :: k in {"s", "bit", "bit/s", "percent", "bool", "cps"} ==> !AreCompatible(u, k)
    ensures AreCompatible(u, v) <==> u == v && u != ""
  {
    NamedFamilies();
    hide FamilyOf;
    if u != "" && FamilyOf(u) != Unscaled {
      assert !AreCompatible(u, "s") && !AreCompatible(u, "bit") && !AreCompatible(u, "bit/s");
      assert !AreCompatible(u, "percent") && !AreCompatible(u, "bool") && !AreCompatible(u, "cps");
    }
  }
}
