/**
 * The few pieces of the C++ standard library (64-bit libstdc++) that the label
 * parser relies on: size_t arithmetic, std::string::find, std::string::substr,
 * the int-to-size_t conversion and std::vector::at.
 */
module CppStd {
  import opened Results

  /** size_t arithmetic is modulo 2^64. */
  const SIZE_MODULUS: nat := 0x1_0000_0000_0000_0000

  /** std::string::npos, the largest size_t value. */
  const NPOS: nat := SIZE_MODULUS - 1

  /** PTRDIFF_MAX: neither a std::string nor a std::vector can hold more elements than this. */
  const MAX_SIZE: nat := 0x7FFF_FFFF_FFFF_FFFF

  type size_t = n: nat | n < SIZE_MODULUS

  /** C++ `int` (cv::Point::x). */
  newtype int32 = x: int | -0x8000_0000 <= x < 0x8000_0000

  /** Unsigned addition, which wraps around. */
  function SizeAdd(a: size_t, b: size_t): (r: size_t)
    ensures a + b < SIZE_MODULUS ==> r == a + b
    ensures a + b >= SIZE_MODULUS ==> r == a + b - SIZE_MODULUS
  {
    (a + b) % SIZE_MODULUS
  }

  /** The implicit conversion of an int argument to a size_t parameter: the value modulo 2^64. */
  function ToSize(i: int32): (r: size_t)
    ensures i >= 0 ==> r == i as int
    ensures i < 0 ==> r == i as int + SIZE_MODULUS
  {
    (i as int) % SIZE_MODULUS
  }

  function FindFrom(s: string, c: char, from: nat): (r: size_t)
    requires from <= |s| <= MAX_SIZE
    ensures (from <= r < |s| && s[r] == c && c !in s[from..r]) || (r == NPOS && c !in s[from..])
    decreases |s| - from
  {
    if from == |s| then NPOS
    else if s[from] == c then from
    else
      var r := FindFrom(s, c, from + 1);
      assert s[from..] == [s[from]] + s[from + 1..];
      assert r < |s| ==> s[from..r] == [s[from]] + s[from + 1..r];
      r
  }

  /** s.find(c): the index of the first occurrence of c, or npos when there is none. */
  function Find(s: string, c: char): (r: size_t)
    requires |s| <= MAX_SIZE
    ensures r < |s| ==> s[r] == c && c !in s[..r]
    ensures r >= |s| ==> r == NPOS && c !in s
  {
    FindFrom(s, c, 0)
  }

  /** s.substr(pos): the tail of s from pos; throws std::out_of_range when pos > s.size(). */
  function Substr(s: string, pos: size_t): (r: Result<string>)
    ensures r.Ok? <==> pos <= |s|
    ensures r.Ok? ==> |r.value| == |s| - pos && s == s[..pos] + r.value
    ensures r.Err? ==> r.error == OutOfRange
  {
    if pos <= |s| then Ok(s[pos..]) else Err(OutOfRange)
  }

  /** v.at(n): the n-th element; throws std::out_of_range when n >= v.size(). */
  function VectorAt<T>(v: seq<T>, n: size_t): (r: Result<T>)
    ensures r.Ok? <==> n < |v|
    ensures r.Ok? ==> r.value == v[n]
    ensures r.Err? ==> r.error == OutOfRange
  {
    if n < |v| then Ok(v[n]) else Err(OutOfRange)
  }
}
