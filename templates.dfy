/** Python format strings restricted to what the core uses: literal text
    and `{}`/`{0}` holes, all filled with the same single argument.
    `Fill(t, a)` is `t.format(a)`: the argument is inserted verbatim, so
    braces inside it are never read as holes. */
module Templates {

  datatype Segment = Lit(text: string) | Hole

  type Template = seq<Segment>

  /** `"{}" + suffix`, as in "{}Model". */
  function Prefixed(suffix: string): Template { [Hole, Lit(suffix)] }

  /** `prefix + "{}" + suffix`, as in "typing.Optional[{}]". */
  function Around(prefix: string, suffix: string): Template { [Lit(prefix), Hole, Lit(suffix)] }

  function Fill(t: Template, arg: string): string
    decreases |t|
  {
    if t == [] then ""
    else (match t[0] case Lit(s) => s case Hole => arg) + Fill(t[1..], arg)
  }

  function HoleCount(t: Template): nat
    decreases |t|
  {
    if t == [] then 0 else (if t[0].Hole? then 1 else 0) + HoleCount(t[1..])
  }

  function LitLength(t: Template): nat
    decreases |t|
  {
    if t == [] then 0 else (if t[0].Lit? then |t[0].text| else 0) + LitLength(t[1..])
  }

  /** The text of a template as Python writes it, every hole shown as "{}". */
  function Text(t: Template): string
  {
    Fill(t, "{}")
  }

  /** Every hole receives the whole argument. */
  lemma {:induction false} FillLength(t: Template, arg: string)
    ensures |Fill(t, arg)| == LitLength(t) + HoleCount(t) * |arg|
    decreases |t|
  {
    if t != [] { FillLength(t[1..], arg); }
  }

  /** A template with a hole tells its arguments apart: filling is injective. */
  lemma FillInjective(t: Template, a: string, b: string)
    requires HoleCount(t) >= 1
    requires Fill(t, a) == Fill(t, b)
    ensures a == b
  {
    FillLength(t, a);
    FillLength(t, b);
    MulCancel(HoleCount(t), |a|, |b|);
    FillInjectiveSameLength(t, a, b);
  }

  lemma MulCancel(k: nat, x: nat, y: nat)
    requires k >= 1 && k * x == k * y
    ensures x == y
  {
  }

  lemma {:induction false} FillInjectiveSameLength(t: Template, a: string, b: string)
    requires HoleCount(t) >= 1 && |a| == |b|
    requires Fill(t, a) == Fill(t, b)
    ensures a == b
    decreases |t|
  {
    match t[0]
    case Lit(s) =>
      assert Fill(t[1..], a) == Fill(t, a)[|s|..];
      assert Fill(t[1..], b) == Fill(t, b)[|s|..];
      FillInjectiveSameLength(t[1..], a, b);
    case Hole =>
      assert a == Fill(t, a)[..|a|];
      assert b == Fill(t, b)[..|b|];
  }

  /** Filling a single-hole template puts the argument between its two literals. */
  lemma FillAround(prefix: string, suffix: string, arg: string)
    ensures Fill(Around(prefix, suffix), arg) == prefix + arg + suffix
    ensures HoleCount(Around(prefix, suffix)) == 1
  {
    var t := Around(prefix, suffix);
    assert t[1..][1..][1..] == [];
    assert Fill(t[1..][1..], arg) == suffix + Fill([], arg);
    assert Fill(t[1..], arg) == arg + suffix;
    assert HoleCount(t[1..][1..]) == 0;
  }

  lemma FillPrefixed(suffix: string, arg: string)
    ensures Fill(Prefixed(suffix), arg) == arg + suffix
  {
    var t := Prefixed(suffix);
    assert t[1..][1..] == [];
    assert Fill(t[1..], arg) == suffix + Fill([], arg);
  }
}
