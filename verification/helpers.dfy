/** The two small pure exports of main.go, `countLines` and `sumProduct`,
    with C's 32-bit `int` results written out. */
module Helpers {
  import opened FixedWidth

  /** The number of newline characters in a string, as `strings.Count(s,
      "\n")` counts them (a one-character pattern cannot overlap itself). */
  function Newlines(s: string): (n: nat)
    ensures n == multiset(s)['\n']
    ensures n <= |s|
  {
    if s == [] then 0
    else
      assert s == [s[0]] + s[1..];
      (if s[0] == '\n' then 1 else 0) + Newlines(s[1..])
  }

  /** `countLines`: the newline count narrowed to `int32`. */
  function CountLines(s: string): (n: int32)
    ensures |s| < TWO_31 ==> n == multiset(s)['\n']
    ensures (n - multiset(s)['\n']) % TWO_32 == 0
  {
    ToInt32(Newlines(s))
  }

  /** Counting splits over concatenation. */
  lemma {:induction false} NewlinesAppend(a: string, b: string)
    ensures Newlines(a + b) == Newlines(a) + Newlines(b)
  {
    assert multiset(a + b) == multiset(a) + multiset(b);
  }

  /** The cgo `InputStruct` and `OutputStruct`, fields of C type `int`. */
  datatype InputStruct = InputStruct(a: int32, b: int32)
  datatype OutputStruct = OutputStruct(sum: int32, product: int32)

  /** `sumProduct`: sum and product with 32-bit wrap-around. */
  function SumProduct(input: InputStruct): (out: OutputStruct)
    ensures -TWO_31 <= input.a + input.b < TWO_31 ==> out.sum == input.a + input.b
    ensures -TWO_31 <= input.a * input.b < TWO_31 ==> out.product == input.a * input.b
    ensures (out.sum - (input.a + input.b)) % TWO_32 == 0
    ensures (out.product - input.a * input.b) % TWO_32 == 0
  {
    OutputStruct(ToInt32(input.a + input.b), ToInt32(input.a * input.b))
  }
}
