/** Runs of the install protocol compose. */
module InstallRuns {
  import opened InstallProtocol

  lemma {:induction false} ExecConcat(cfg: Config, s: State, a: seq<Step>, b: seq<Step>)
    ensures Exec(cfg, s, a + b) == Exec(cfg, Exec(cfg, s, a), b)
    decreases |a|
  {
    if a == [] {
      assert a + b == b;
    } else {
      assert (a + b)[1..] == a[1..] + b;
      ExecConcat(cfg, Next(cfg, s, a[0]), a[1..], b);
    }
  }

  lemma ExecOne(cfg: Config, s: State, step: Step)
    ensures Exec(cfg, s, [step]) == Next(cfg, s, step)
  {
    assert [step][1..] == [];
    assert Exec(cfg, Next(cfg, s, step), []) == Next(cfg, s, step);
  }
}
