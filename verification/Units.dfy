/** Units of measurement: which units belong to one family, and conversion inside a
    family. Numbers are exact. */
module Units {

  datatype Family = Duration | Data | DataRate | Percent | Boolean | Throughput | Unscaled

  predicate IsDuration(u: string)
  {
    u in {
      "ns", "us", "\U{00B5}s", "ms", "s", "m", "h", "d", "min", "w", "wk"
    }
  }

  predicate IsData(u: string)
  {
    u in {
      "bytes", "decbytes", "bits", "bit", "decbits", "kbytes", "decKbytes", "deckbytes", "mbytes", "decMbytes",
      "decmbytes", "gbytes", "decGbytes", "decgbytes", "tbytes", "decTbytes", "dectbytes", "pbytes", "decPbytes",
      "decpbytes", "By", "kBy", "MBy", "GBy", "TBy", "PBy", "EBy", "ZBy", "YBy", "KiBy", "MiBy", "GiBy", "TiBy",
      "PiBy", "EiBy", "ZiBy", "YiBy", "kbit", "Mbit", "Gbit", "Tbit", "Pbit", "Ebit", "Zbit", "Ybit", "Kibit",
      "Mibit", "Gibit", "Tibit", "Pibit"
    }
  }

  predicate IsDataRate(u: string)
  {
    u in {
      "binBps", "Bps", "binbps", "bps", "KiBs", "Kibits", "KBs", "Kbits", "MiBs", "Mibits", "MBs", "Mbits",
      "GiBs", "Gibits", "GBs", "Gbits", "TiBs", "Tibits", "TBs", "Tbits", "PiBs", "Pibits", "PBs", "Pbits",
      "By/s", "kBy/s", "MBy/s", "GBy/s", "TBy/s", "PBy/s", "EBy/s", "ZBy/s", "YBy/s", "bit/s", "kbit/s",
      "Mbit/s", "Gbit/s", "Tbit/s", "Pbit/s", "Ebit/s", "Zbit/s", "Ybit/s", "KiBy/s", "MiBy/s", "GiBy/s",
      "TiBy/s", "PiBy/s", "EiBy/s", "ZiBy/s", "YiBy/s", "Kibit/s", "Mibit/s", "Gibit/s", "Tibit/s", "Pibit/s",
      "Eibit/s", "Zibit/s", "Yibit/s"
    }
  }

  predicate IsPercent(u: string)
  {
    u in {
      "percent", "percentunit", "%"
    }
  }

  predicate IsBoolean(u: string)
  {
    u in {
      "bool", "bool_yes_no", "bool_true_false", "bool_1_0"
    }
  }

  predicate IsThroughput(u: string)
  {
    u in {
      "cps", "ops", "reqps", "rps", "wps", "iops", "cpm", "opm", "rpm", "wpm", "{count}/s", "{ops}/s", "{req}/s",
      "{read}/s", "{write}/s", "{iops}/s", "{count}/min", "{ops}/min", "{read}/min", "{write}/min"
    }
  }

  /** The converter family of a unit; unknown units have none of their own. */
  function FamilyOf(u: string): Family
  {
    if IsDuration(u) then Duration
    else if IsData(u) then Data
    else if IsDataRate(u) then DataRate
    else if IsPercent(u) then Percent
    else if IsBoolean(u) then Boolean
    else if IsThroughput(u) then Throughput
    else Unscaled
  }

  predicate AreCompatible(from: string, to: string)
  {
    if from == "" || to == "" then false
    else if from == to then true
    else if FamilyOf(from) == Unscaled || FamilyOf(to) == Unscaled then false
    else FamilyOf(from) == FamilyOf(to)
  }

  // Seconds, bits, bits per second and hundredths per unit.

  function DurationFactor(u: string): (factor: real)
    ensures factor > 0.0
  {
    match u
    case "ns" => 0.000000001
    case "us" | "\U{00B5}s" => 0.000001
    case "ms" => 0.001
    case "cs" => 0.01
    case "ds" => 0.1
    case "s" => 1.0
    case "m" | "min" => 60.0
    case "h" => 3600.0
    case "d" => 86400.0
    case "w" | "wk" => 604800.0
    case _ => 1.0
  }

  function DataFactor(u: string): (factor: real)
    ensures factor > 0.0
  {
    match u
    case "bytes" | "By" => 8.0
    case "decbytes" => 8.0
    case "bits" | "bit" => 1.0
    case "decbits" => 1.0
    case "kbytes" | "KiBy" => 8192.0
    case "decKbytes" | "deckbytes" | "kBy" => 8000.0
    case "mbytes" | "MiBy" => 8388608.0
    case "decMbytes" | "decmbytes" | "MBy" => 8000000.0
    case "gbytes" | "GiBy" => 8589934592.0
    case "decGbytes" | "decgbytes" | "GBy" => 8000000000.0
    case "tbytes" | "TiBy" => 8796093022208.0
    case "decTbytes" | "dectbytes" | "TBy" => 8000000000000.0
    case "pbytes" | "PiBy" => 9007199254740992.0
    case "decPbytes" | "decpbytes" | "PBy" => 8000000000000000.0
    case "EBy" => 8000000000000000000.0
    case "ZBy" => 8000000000000000000000.0
    case "YBy" => 8000000000000000000000000.0
    case "Kibit" => 1024.0
    case "Mibit" => 1048576.0
    case "Gibit" => 1073741824.0
    case "Tibit" => 1099511627776.0
    case "Pibit" => 1125899906842624.0
    case "EiBy" => 9223372036854775808.0
    case "ZiBy" => 9444732965739290427392.0
    case "YiBy" => 9671406556917033397649408.0
    case "kbit" => 1000.0
    case "Mbit" => 1000000.0
    case "Gbit" => 1000000000.0
    case "Tbit" => 1000000000000.0
    case "Pbit" => 1000000000000000.0
    case "Ebit" => 1000000000000000000.0
    case "Zbit" => 1000000000000000000000.0
    case "Ybit" => 1000000000000000000000000.0
    case _ => 1.0
  }

  function DataRateFactor(u: string): (factor: real)
    ensures factor > 0.0
  {
    match u
    case "binBps" => 8.0
    case "Bps" | "By/s" => 8.0
    case "binbps" => 1.0
    case "bps" | "bit/s" => 1.0
    case "KiBs" | "KiBy/s" => 8192.0
    case "Kibits" | "Kibit/s" => 1024.0
    case "KBs" | "kBy/s" => 8000.0
    case "Kbits" | "kbit/s" => 1000.0
    case "MiBs" | "MiBy/s" => 8388608.0
    case "Mibits" | "Mibit/s" => 1048576.0
    case "MBs" | "MBy/s" => 8000000.0
    case "Mbits" | "Mbit/s" => 1000000.0
    case "GiBs" | "GiBy/s" => 8589934592.0
    case "Gibits" | "Gibit/s" => 1073741824.0
    case "GBs" | "GBy/s" => 8000000000.0
    case "Gbits" | "Gbit/s" => 1000000000.0
    case "TiBs" | "TiBy/s" => 8796093022208.0
    case "Tibits" | "Tibit/s" => 1099511627776.0
    case "TBs" | "TBy/s" => 8000000000000.0
    case "Tbits" | "Tbit/s" => 1000000000000.0
    case "PiBs" | "PiBy/s" => 9007199254740992.0
    case "Pibits" | "Pibit/s" => 1125899906842624.0
    case "PBs" | "PBy/s" => 8000000000000000.0
    case "Pbits" | "Pbit/s" => 1000000000000000.0
    case "EBy/s" => 8000000000000000000.0
    case "Ebit/s" => 1000000000000000000.0
    case "EiBy/s" => 9223372036854775808.0
    case "Eibit/s" => 1152921504606846976.0
    case "ZBy/s" => 8000000000000000000000.0
    case "Zbit/s" => 1000000000000000000000.0
    case "ZiBy/s" => 9444732965739290427392.0
    case "Zibit/s" => 1180591620717411303424.0
    case "YBy/s" => 8000000000000000000000000.0
    case "Ybit/s" => 1000000000000000000000000.0
    case "YiBy/s" => 9671406556917033397649408.0
    case "Yibit/s" => 1208925819614629174706176.0
    case _ => 1.0
  }

  function PercentFactor(u: string): (factor: real)
    ensures factor > 0.0
  {
    match u
    case "percent" | "%" => 1.0
    case "percentunit" => 100.0
    case _ => 1.0
  }

  /** Size of a unit in its family's base unit; families without scaling use one. */
  function Factor(f: Family, u: string): (factor: real)
    ensures factor > 0.0
  {
    match f
    case Duration => DurationFactor(u)
    case Data => DataFactor(u)
    case DataRate => DataRateFactor(u)
    case Percent => PercentFactor(u)
    case _ => 1.0
  }

  /** Conversion by the converter of the source unit. */
  function Convert(x: real, from: string, to: string): real
  {
    x * Factor(FamilyOf(from), from) / Factor(FamilyOf(from), to)
  }

  lemma CompatibleIsEquivalence(a: string, b: string, c: string)
    ensures a != "" <==> AreCompatible(a, a)
    ensures AreCompatible(a, b) ==> AreCompatible(b, a)
    ensures AreCompatible(a, b) && AreCompatible(b, c) ==> AreCompatible(a, c)
  {
  }

  lemma ScaleCompose(x: real, p: real, q: real, r: real)
    requires p > 0.0 && q > 0.0 && r > 0.0
    ensures x * p / q * q / r == x * p / r
  {
    assert x * p / q * q == x * p;
  }

  lemma ScaleIdentity(x: real, p: real)
    requires p > 0.0
    ensures x * p / p == x
  {
  }

  lemma ScaleOrder(x: real, y: real, p: real, q: real)
    requires p > 0.0 && q > 0.0
    ensures x * p / q <= y * p / q <==> x <= y
  {
    var s := p / q;
    assert s > 0.0;
    assert x * p / q == x * s && y * p / q == y * s;
    if x <= y { assert (y - x) * s >= 0.0; }
    if x > y { assert (x - y) * s > 0.0; }
  }

  /** Converting a value through an intermediate unit is the direct conversion. */
  lemma ConvertComposes(x: real, a: string, b: string, c: string)
    requires AreCompatible(a, b) && AreCompatible(b, c)
    ensures Convert(Convert(x, a, b), b, c) == Convert(x, a, c)
  {
    hide FamilyOf, Factor;
    ScaleCompose(x, Factor(FamilyOf(a), a), Factor(FamilyOf(a), b), Factor(FamilyOf(a), c));
  }

  /** A value converted to its own unit, or to another and back, is unchanged. */
  lemma ConvertInverts(x: real, a: string, b: string)
    requires AreCompatible(a, b)
    ensures Convert(x, a, a) == x && Convert(Convert(x, a, b), b, a) == x
  {
    hide FamilyOf, Factor;
    ScaleIdentity(x, Factor(FamilyOf(a), a));
    ScaleCompose(x, Factor(FamilyOf(a), a), Factor(FamilyOf(a), b), Factor(FamilyOf(a), a));
  }

  /** Conversion keeps order, and so equality and zero. */
  lemma ConvertKeepsOrder(x: real, y: real, a: string, b: string)
    ensures Convert(x, a, b) <= Convert(y, a, b) <==> x <= y
    ensures Convert(x, a, b) == 0.0 <==> x == 0.0
  {
    hide FamilyOf, Factor;
    var p, q := Factor(FamilyOf(a), a), Factor(FamilyOf(a), b);
    ScaleOrder(x, y, p, q);
    ScaleOrder(x, 0.0, p, q);
    ScaleOrder(0.0, x, p, q);
  }
}
