/**
 `get_version_info` and `get_version`: decoding the packed FFMS_VERSION
 word `major << 24 | minor << 16 | micro << 8 | bump` and printing it
 with trailing zero components dropped, but never fewer than two.
 */
module Version {
  import opened Text

  datatype VersionInfo = VersionInfo(major: int, minor: int, micro: int, bump: int)

  function Components(v: VersionInfo): seq<int>
  {
    [v.major, v.minor, v.micro, v.bump]
  }

  /** The word a version packs into. */
  function Pack(v: VersionInfo): int
  {
    v.major * 0x100_0000 + v.minor * 0x1_0000 + v.micro * 0x100 + v.bump
  }

  predicate InByteRange(v: VersionInfo)
  {
    0 <= v.minor < 256 && 0 <= v.micro < 256 && 0 <= v.bump < 256
  }

  /** `get_version_info()` for the word n, by three Python floor divmods. */
  function GetVersionInfo(n: int): (v: VersionInfo)
    ensures Pack(v) == n
    ensures InByteRange(v)
  {
    var major := n / 0x100_0000;
    var r := n % 0x100_0000;
    var minor := r / 0x1_0000;
    var r2 := r % 0x1_0000;
    VersionInfo(major, minor, r2 / 0x100, r2 % 0x100)
  }

  /** Decoding undoes packing for every version whose lower three
      components fit in a byte. */
  lemma UnpackPack(v: VersionInfo)
    requires InByteRange(v)
    ensures GetVersionInfo(Pack(v)) == v
  {
    var low := v.minor * 0x1_0000 + v.micro * 0x100 + v.bump;
    assert 0 <= low < 0x100_0000;
    var w := GetVersionInfo(Pack(v));
    var lowW := w.minor * 0x1_0000 + w.micro * 0x100 + w.bump;
    assert 0 <= lowW < 0x100_0000;
    assert w.major == v.major by {
      assert (w.major - v.major) * 0x100_0000 == low - lowW;
    }
    assert w.minor == v.minor by {
      assert (w.minor - v.minor) * 0x1_0000 == (v.micro * 0x100 + v.bump) - (w.micro * 0x100 + w.bump);
    }
    assert w.micro == v.micro by {
      assert (w.micro - v.micro) * 0x100 == v.bump - w.bump;
    }
  }

  /** The components `get_version` prints: the first two always, then up
      to the last non-zero one. */
  function Shown(v: VersionInfo): (r: seq<int>)
    ensures 2 <= |r| <= 4 && r == Components(v)[..|r|]
    // nothing dropped is non-zero ...
    ensures forall i :: |r| <= i < 4 ==> Components(v)[i] == 0
    // ... and nothing shown beyond the second is a trailing zero
    ensures |r| == 2 || r[|r| - 1] != 0
  {
    if v.bump != 0 then [v.major, v.minor, v.micro, v.bump]
    else if v.micro != 0 then [v.major, v.minor, v.micro]
    else [v.major, v.minor]
  }

  /** The parts written in decimal and separated by dots. */
  function Join(parts: seq<int>): (s: string)
    requires |parts| >= 1
    decreases |parts|
  {
    if |parts| == 1 then IntToString(parts[0])
    else IntToString(parts[0]) + "." + Join(parts[1..])
  }

  /** `get_version()` for the word n. */
  function GetVersion(n: int): string
  {
    Join(Shown(GetVersionInfo(n)))
  }

  /** The joined string holds one dot fewer than there are parts, so
      each printed component stands on its own. */
  lemma {:induction false} JoinDots(parts: seq<int>)
    requires |parts| >= 1
    ensures multiset(Join(parts))['.'] == |parts| - 1
    decreases |parts|
  {
    var head := IntToString(parts[0]);
    assert multiset(head)['.'] == 0;
    if |parts| > 1 {
      JoinDots(parts[1..]);
      assert Join(parts) == head + "." + Join(parts[1..]);
    }
  }

  /** `get_version()` prints between two and four components, and four
      exactly when the bump number is non-zero. */
  lemma VersionComponents(n: int)
    ensures var dots := multiset(GetVersion(n))['.'];
            && 1 <= dots <= 3
            && (dots == 3 <==> GetVersionInfo(n).bump != 0)
            && (dots == 1 <==> GetVersionInfo(n).bump == 0 && GetVersionInfo(n).micro == 0)
  {
    JoinDots(Shown(GetVersionInfo(n)));
  }

  lemma SmallNumbers()
    ensures IntToString(0) == "0" && IntToString(1) == "1"
    ensures IntToString(2) == "2" && IntToString(23) == "23"
  {
    assert NatToString(23) == NatToString(2) + [DigitChar(3)];
  }

  /** Worked examples: 2.23, 2.0, 2.23.1 and 2.23.0.1. */
  lemma VersionExampleMinor()
    ensures GetVersion(0x0217_0000) == "2.23"
  {
    SmallNumbers();
    UnpackPack(VersionInfo(2, 23, 0, 0));
    assert Join([2, 23]) == "2" + "." + Join([23]);
  }

  /** At least two components are printed even when all but the major
      number are zero. */
  lemma VersionExampleMajor()
    ensures GetVersion(0x0200_0000) == "2.0"
  {
    SmallNumbers();
    UnpackPack(VersionInfo(2, 0, 0, 0));
    assert Join([2, 0]) == "2" + "." + Join([0]);
  }

  lemma VersionExampleMicro()
    ensures GetVersion(0x0217_0100) == "2.23.1"
  {
    SmallNumbers();
    UnpackPack(VersionInfo(2, 23, 1, 0));
    assert Join([23, 1]) == "23" + "." + Join([1]);
    assert Join([2, 23, 1]) == "2" + "." + Join([23, 1]);
  }

  lemma VersionExampleBump()
    ensures GetVersion(0x0217_0001) == "2.23.0.1"
  {
    SmallNumbers();
    UnpackPack(VersionInfo(2, 23, 0, 1));
    assert Join([0, 1]) == "0" + "." + Join([1]);
    assert Join([23, 0, 1]) == "23" + "." + Join([0, 1]);
    assert Join([2, 23, 0, 1]) == "2" + "." + Join([23, 0, 1]);
  }
}
