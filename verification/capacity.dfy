/** The helpers of the capacity package: list membership and the divisors
    that turn exact quantities into the human-readable columns.

    The readable values are exact reals here; the source computes them in
    float64, so printed values may differ from these by rounding. */
module Capacity {

  /** Linear scan for an element equal to `a`. */
  function StringInSlice(a: string, list: seq<string>): (found: bool)
    ensures found <==> exists i :: 0 <= i < |list| && list[i] == a
    ensures |list| == 0 ==> !found
  {
    if |list| == 0 then false
    else if list[0] == a then true
    else
      var rest := StringInSlice(a, list[1..]);
      assert rest ==> exists i :: 0 <= i < |list| && list[i] == a by {
        if rest {
          var i :| 0 <= i < |list[1..]| && list[1..][i] == a;
          assert list[i + 1] == a;
        }
      }
      assert (exists i :: 0 <= i < |list| && list[i] == a) ==> rest by {
        if exists i :: 0 <= i < |list| && list[i] == a {
          var i :| 0 <= i < |list| && list[i] == a;
          assert i > 0 && list[1..][i - 1] == a;
        }
      }
      rest
  }

  /** Millicores to cores. */
  function ReadableCPU(milli: int): (cores: real)
    ensures cores * 1000.0 == milli as real
  {
    milli as real / 1000.0
  }

  /** Bytes to binary gibibytes (2^30 bytes). */
  function ReadableMem(bytes: int): (gib: real)
    ensures gib * 1073741824.0 == bytes as real
  {
    bytes as real / 1024.0 / 1024.0 / 1024.0
  }

  /** Bytes to decimal gigabytes (10^9 bytes): storage deliberately uses a
      different unit family from memory. */
  function ReadableStorage(bytes: int): (gb: real)
    ensures gb * 1000000000.0 == bytes as real
  {
    bytes as real / 1000.0 / 1000.0 / 1000.0
  }
}
