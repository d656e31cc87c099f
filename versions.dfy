/** The three Tailwind CSS major versions the formatter distinguishes, in
    declaration order, and their display strings
    (src/Helpers/TailwindVersionStringConverter.cs). */
module Versions {

  datatype TailwindVersion = V3 | V4 | V4_1 {
    /** Position in declaration order, so that `version >= TailwindVersion.V4`
        in the source is `AtLeast(V4)` here. */
    function Rank(): nat {
      match this
      case V3 => 0
      case V4 => 1
      case V4_1 => 2
    }

    predicate AtLeast(other: TailwindVersion) {
      Rank() >= other.Rank()
    }
  }

  /** TailwindVersionStringConverter.ToFormattedString */
  function ToFormattedString(version: TailwindVersion): (r: string)
    ensures version == V4_1 ==> r == "4.1.x"
    ensures version == V4 ==> r == "4.0.x"
    ensures !version.AtLeast(V4) ==> r == "3.0.x"
    ensures |r| == 5 && r[0] == (if version.AtLeast(V4) then '4' else '3') && r[3..] == ".x"
  {
    if version == V4_1 then "4.1.x"
    else if version == V4 then "4.0.x"
    else "3.0.x"
  }

  /** The three versions have three distinct display strings. */
  lemma FormattedStringInjective(a: TailwindVersion, b: TailwindVersion)
    ensures ToFormattedString(a) == ToFormattedString(b) ==> a == b
  {
    assert ToFormattedString(V3)[0] == '3' && ToFormattedString(V4)[2] == '0' && ToFormattedString(V4_1)[2] == '1';
  }
}
