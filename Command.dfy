// The external-command side of a transition: how `RunExternalCmd` turns a
// configured command string into a program and its arguments, and the record
// of which command a transition ran.

module Command {

  /** `strings.Split(s, " ")`: the pieces of `s` between single spaces. */
  function Split(s: string): (r: seq<string>)
    ensures |r| == Spaces(s) + 1
    ensures forall i :: 0 <= i < |r| ==> ' ' !in r[i]
    decreases |s|
  {
    if s == [] then [[]]
    else if s[0] == ' ' then [[]] + Split(s[1..])
    else
      var rest := Split(s[1..]);
      [[s[0]] + rest[0]] + rest[1..]
  }

  /** The number of space characters in `s`. */
  function Spaces(s: string): nat
    decreases |s|
  {
    if s == [] then 0 else (if s[0] == ' ' then 1 else 0) + Spaces(s[1..])
  }

  /** `strings.Join(ts, " ")`. */
  function Join(ts: seq<string>): string
    decreases |ts|
  {
    if ts == [] then []
    else if |ts| == 1 then ts[0]
    else ts[0] + [' '] + Join(ts[1..])
  }

  /** Joining the pieces with single spaces gives back the original string. */
  lemma {:induction false} JoinSplit(s: string)
    ensures Join(Split(s)) == s
    decreases |s|
  {
    if s == [] {
    } else if s[0] == ' ' {
      JoinSplit(s[1..]);
      assert s == [' '] + s[1..];
    } else {
      JoinSplit(s[1..]);
      var rest := Split(s[1..]);
      assert s == [s[0]] + s[1..];
      if |rest| == 1 {
      } else {
        assert Join(rest) == rest[0] + [' '] + Join(rest[1..]);
      }
    }
  }

  /** Splitting a space-joined list of space-free pieces gives the pieces back,
      empty pieces included. */
  lemma {:induction false} SplitJoin(ts: seq<string>)
    requires |ts| >= 1
    requires forall i :: 0 <= i < |ts| ==> ' ' !in ts[i]
    ensures Split(Join(ts)) == ts
    decreases |ts|, |ts[0]|
  {
    if ts[0] == [] {
      if |ts| == 1 {
      } else {
        SplitJoin(ts[1..]);
        assert Join(ts) == [' '] + Join(ts[1..]);
        assert [[]] + ts[1..] == ts;
      }
    } else {
      var c := ts[0][0];
      var ts' := [ts[0][1..]] + ts[1..];
      assert ' ' !in ts'[0] by { assert forall x :: x in ts'[0] ==> x in ts[0]; }
      SplitJoin(ts');
      if |ts| == 1 {
        assert Join(ts) == [c] + Join(ts');
      } else {
        assert ts'[1..] == ts[1..];
        assert Join(ts) == [c] + Join(ts');
      }
      assert Join(ts)[0] == c && Join(ts)[1..] == Join(ts');
      assert [c] + ts'[0] == ts[0];
      assert [[c] + ts'[0]] + ts'[1..] == ts;
    }
  }

  /** Two spaces in a row produce an empty piece between them. */
  lemma DoubleSpaceGivesEmptyToken(a: string, b: string)
    requires ' ' !in a && ' ' !in b
    ensures Split(a + "  " + b) == [a, "", b]
  {
    SplitJoin([a, "", b]);
    assert Join(["", b]) == [' '] + b by { assert ["", b][1..] == [b]; }
    assert [a, "", b][1..] == ["", b];
    assert Join([a, "", b]) == a + "  " + b;
  }

  datatype Option<T> = None | Some(value: T)

  /** The program and argument list handed to `exec.Command`. */
  datatype Invocation = Invocation(program: string, args: seq<string>)

  /** `RunExternalCmd`'s tokenisation: the first piece is the program, the
      remaining pieces are its arguments. */
  function Tokenize(cmd: string): (r: Invocation)
    ensures Join([r.program] + r.args) == cmd
    ensures ' ' !in r.program
    ensures |r.args| == Spaces(cmd)
  {
    JoinSplit(cmd);
    var split := Split(cmd);
    assert split == [split[0]] + split[1..];
    Invocation(split[0], split[1..])
  }

  /** Which edge of the health state machine a command was run for. */
  datatype Edge = WentDown | WentUp

  /** One external command run on a transition: the edge and the command string. */
  datatype Fired = Fired(edge: Edge, cmd: string)
}
