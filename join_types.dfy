/** JoinTypes: the kinds of SQL join the builder can emit. */
module JoinTypes {
  import opened Clr

  /** A C# enum is its underlying Int32: the four named members are 0 to 3 in
      declaration order, and a cast can yield any other Int32 as well. */
  type JoinType = int32

  const Inner: JoinType := 0
  const Left: JoinType := 1
  const Right: JoinType := 2
  const FullOuter: JoinType := 3

  predicate IsNamed(j: JoinType)
  {
    j == Inner || j == Left || j == Right || j == FullOuter
  }
}
