/**
 The parts of VRNativeService that are more than a system call: the path and command whitelists and the loop
 that collects a command's output line by line.
 */
module NativeService {
  import opened CStrings
  import opened TwosComplement

  // Whitelists

  const CPU_NODES: seq<Text> :=
    ["cpufreq/scaling_min_freq", "cpufreq/scaling_available_frequencies", "cpufreq/scaling_cur_freq"]
  const GPU_NODES: seq<Text> := ["msm_cmd_autorefresh_en"]
  const COMMANDS: seq<Text> := ["dfu-util", "service call"]

  function CpuPath(i: nat, j: nat): string
    requires j < |CPU_NODES|
  {
    "/sys/devices/system/cpu/cpu" + Decimal(i) + "/" + CPU_NODES[j]
  }

  function GpuPath(i: nat, j: nat): string
    requires j < |GPU_NODES|
  {
    "/sys/devices/virtual/graphics/fb" + Decimal(i) + "/" + GPU_NODES[j]
  }

  /** The nodes that may be read or written. */
  predicate Listed(path: string) {
    || (exists i, j :: 0 <= i < 10 && 0 <= j < |CPU_NODES| && path == CpuPath(i, j))
    || (exists i, j :: 0 <= i < 4 && 0 <= j < |GPU_NODES| && path == GpuPath(i, j))
  }

  method CheckAccessNodePerm(path: Option<Text>) returns (ok: bool)
    ensures ok <==> path.Some? && Listed(path.value)
  {
    if path.None? {
      return false;
    }
    for i := 0 to 10
      invariant forall k, l :: 0 <= k < i && 0 <= l < |CPU_NODES| ==> path.value != CpuPath(k, l)
    {
      for j := 0 to |CPU_NODES|
        invariant forall l :: 0 <= l < j ==> path.value != CpuPath(i, l)
      {
        var buffer := CpuPath(i, j);
        if buffer == path.value {
          return true;
        }
      }
    }
    for i := 0 to 4
      invariant forall k, l :: 0 <= k < i && 0 <= l < |GPU_NODES| ==> path.value != GpuPath(k, l)
    {
      for j := 0 to |GPU_NODES|
        invariant forall l :: 0 <= l < j ==> path.value != GpuPath(i, l)
      {
        var buffer := GpuPath(i, j);
        if buffer == path.value {
          return true;
        }
      }
    }
    ok := false;
  }

  /** The autorefresh path VRAdminService writes when monitors come and go. */
  const MSM_CMD_AUTOREFRESH: string := "/sys/class/graphics/fb0/msm_cmd_autorefresh_en"

  /** It is not on the list, so those writes are always refused. */
  lemma {:induction false} AutorefreshNotListed()
    ensures !Listed("/sys/class/graphics/fb0/msm_cmd_autorefresh_en")
  {
    forall i: nat, j: nat | j < |CPU_NODES| ensures CpuPath(i, j) != MSM_CMD_AUTOREFRESH {
      assert CpuPath(i, j)[5] == 'd';
    }
    forall i: nat, j: nat | j < |GPU_NODES| ensures GpuPath(i, j) != MSM_CMD_AUTOREFRESH {
      assert GpuPath(i, j)[5] == 'd';
    }
  }

  /** The 34 paths, written out. */
  lemma {:induction false} ListedIff(path: string)
    ensures Listed(path) <==>
            || (exists d: char :: '0' <= d <= '9' && CpuNode(path, d))
            || (exists d: char :: '0' <= d <= '3' && GpuNode(path, d))
  {
    if Listed(path) {
      if i, j :| 0 <= i < 10 && 0 <= j < |CPU_NODES| && path == CpuPath(i, j) {
        assert CpuNode(path, Digit(i));
      } else {
        var i, j :| 0 <= i < 4 && 0 <= j < |GPU_NODES| && path == GpuPath(i, j);
        assert GpuNode(path, Digit(i));
      }
    }
    if d: char :| '0' <= d <= '9' && CpuNode(path, d) {
      var j := CpuNodeListed(path, d);
    }
    if d: char :| '0' <= d <= '3' && GpuNode(path, d) {
      assert path == GpuPath(d as int - '0' as int, 0);
    }
  }

  predicate CpuNode(path: string, d: char) {
    var cpu := "/sys/devices/system/cpu/cpu" + [d] + "/";
    || path == cpu + "cpufreq/scaling_min_freq"
    || path == cpu + "cpufreq/scaling_available_frequencies"
    || path == cpu + "cpufreq/scaling_cur_freq"
  }

  predicate GpuNode(path: string, d: char) {
    path == "/sys/devices/virtual/graphics/fb" + [d] + "/" + "msm_cmd_autorefresh_en"
  }

  lemma {:induction false} CpuNodeListed(path: string, d: char) returns (j: nat)
    requires '0' <= d <= '9' && CpuNode(path, d)
    ensures j < |CPU_NODES| && path == CpuPath(d as int - '0' as int, j)
  {
    var i := d as int - '0' as int;
    assert Decimal(i) == [d];
    j := if path == CpuPath(i, 0) then 0 else if path == CpuPath(i, 1) then 1 else 2;
  }

  predicate Allowed(cmd: string) {
    exists i :: 0 <= i < |COMMANDS| && COMMANDS[i] <= cmd
  }

  lemma {:induction false} AllowedIff(cmd: string)
    ensures Allowed(cmd) <==> "dfu-util" <= cmd || "service call" <= cmd
  {
    assert Allowed(cmd) <==> COMMANDS[0] <= cmd || COMMANDS[1] <= cmd;
  }

  lemma {:induction false} PrefixTest(temp: Text, cmd: Text)
    ensures StrNEq(temp, cmd, |temp|) <==> temp <= cmd
  {
    assert Take(temp, |temp|) == temp;
  }

  method CheckSyscallPerm(cmd: Option<Text>) returns (ok: bool)
    ensures ok <==> cmd.Some? && Allowed(cmd.value)
    ensures ok <==> cmd.Some? && ("dfu-util" <= cmd.value || "service call" <= cmd.value)
  {
    if cmd.None? {
      return false;
    }
    AllowedIff(cmd.value);
    for i := 0 to |COMMANDS|
      invariant forall k :: 0 <= k < i ==> !(COMMANDS[k] <= cmd.value)
    {
      var temp := COMMANDS[i];
      PrefixTest(temp, cmd.value);
      if StrNEq(temp, cmd.value, |temp|) {
        return true;
      }
    }
    ok := false;
  }

  // Command output

  const LINE_SIZE: nat := 1024

  /** How much fgets takes: up to and including a newline, at most one less than the buffer. */
  function ChunkLength(s: string, room: nat): (n: nat)
    ensures n <= |s| && n <= room
    ensures s != "" && room > 0 ==> n > 0
  {
    if s == "" || room == 0 then 0
    else if s[0] == '\n' then 1
    else 1 + ChunkLength(s[1..], room - 1)
  }

  /** What the loop keeps of an output: of each chunk, the part before any NUL. */
  function Collected(output: string): Text {
    if output == "" then ""
    else
      var n := ChunkLength(output, LINE_SIZE - 1);
      var rest: Text := Collected(output[n..]);
      CString(output[..n]) + rest
  }

  lemma {:induction false} CollectedWhole(output: string)
    requires NUL !in output
    ensures Collected(output) == output
    decreases |output|
  {
    if output != "" {
      var n := ChunkLength(output, LINE_SIZE - 1);
      CollectedWhole(output[n..]);
      CStringIs(output[..n], output[..n]);
      assert output == output[..n] + output[n..];
    }
  }

  lemma {:induction false} ChunkIs(piece: string, rest: string, room: nat)
    requires |piece| <= room && '\n' !in piece && (|piece| == room || rest == "" || rest[0] == '\n')
    ensures ChunkLength(piece + rest, room) == if |piece| < room && rest != "" then |piece| + 1 else |piece|
  {
    if piece == "" {
      assert piece + rest == rest;
    } else {
      ChunkIs(piece[1..], rest, room - 1);
      assert (piece + rest)[1..] == piece[1..] + rest;
    }
  }

  /**
   What is kept of any output, piece by piece: of a line of at most 1022 characters with its newline, of each 1023
   characters of a longer one, and of what comes after the last newline, the part before any NUL.
   */
  lemma {:induction false} CollectedPiece(piece: string, rest: string)
    requires '\n' !in piece && piece + rest != ""
    requires |piece| == 1023 || (|piece| < 1023 && (rest == "" || rest[0] == '\n'))
    ensures var n := if |piece| < 1023 && rest != "" then |piece| + 1 else |piece|;
            Collected(piece + rest) == CString((piece + rest)[..n]) + Collected((piece + rest)[n..])
  {
    ChunkIs(piece, rest, 1023);
  }

  /** The chunked read reassembles exactly the outputs without a NUL, whatever their lines. */
  lemma {:induction false} CollectedIff(output: string)
    ensures Collected(output) == output <==> NUL !in output
  {
    if NUL !in output {
      CollectedWhole(output);
    }
  }

  /** What is still to be appended, given the line just read. */
  ghost function Pending(got: bool, line: string, rest: string): string {
    if got then CString(line) + Collected(rest) else ""
  }

  /** A pipe from a command, with what is still to come. */
  class Stream {
    var rest: string

    constructor (output: string)
      ensures rest == output
    {
      rest := output;
    }

    method FGets(line: array<char>) returns (got: bool)
      requires line.Length == LINE_SIZE
      modifies this, line
      ensures got <==> old(rest) != ""
      ensures got ==>
                var n := ChunkLength(old(rest), LINE_SIZE - 1);
                && rest == old(rest)[n..] && CString(line[..]) == CString(old(rest)[..n])
      ensures !got ==> rest == old(rest)
    {
      if rest == "" {
        return false;
      }
      var n := ChunkLength(rest, LINE_SIZE - 1);
      forall i | 0 <= i <= n {
        line[i] := if i < n then rest[i] else NUL;
      }
      ghost var s := CString(rest[..n]);
      assert line[..n] == rest[..n];
      assert line[..|s|] == s;
      CStringIs(line[..], s);
      rest := rest[n..];
      got := true;
    }
  }

  /** What is appended and what is still to come make up the total; sum counts what is appended. */
  predicate SoFar(total: string, result0: string, result: string, pending: string, sum: int) {
    result + pending == result0 + total && sum == Wrap(|result| - |result0|)
  }

  lemma {:induction false} OneLine(total: string, result0: string, result: string,
                                   chunk: string, more: string, sum: int)
    requires SoFar(total, result0, result, chunk + more, sum)
    ensures SoFar(total, result0, result + chunk, more, Wrap(sum + |chunk|))
  {
    assert (result + chunk) + more == result + (chunk + more);
    WrapAdd(|result| - |result0|, |chunk|);
  }

  lemma {:induction false} AllLines(total: string, result0: string, result: string, sum: int)
    requires SoFar(total, result0, result, "", sum)
    ensures result == result0 + total && sum == Wrap(|total|)
  {
    assert result + "" == result;
  }

  /** One fgets, seen as a step of what is collected. */
  method NextLine(fp: Stream, line: array<char>) returns (got: bool)
    requires line.Length == LINE_SIZE
    modifies fp, line
    ensures Pending(got, line[..], fp.rest) == Collected(old(fp.rest))
    ensures got ==> |fp.rest| < |old(fp.rest)|
    ensures !got ==> fp.rest == old(fp.rest)
  {
    got := fp.FGets(line);
  }

  /** The loop of systemCall over an open pipe. */
  method Collect(fp: Stream, line: array<char>, result0: string) returns (sum: int, result: string)
    requires line.Length == LINE_SIZE
    modifies fp, line
    ensures result == result0 + Collected(old(fp.rest))
    ensures sum == Wrap(|Collected(old(fp.rest))|)
  {
    result := result0;
    sum := 0;
    ghost var total := Collected(fp.rest);
    var got := NextLine(fp, line);
    ghost var pending := Pending(got, line[..], fp.rest);
    while got
      invariant pending == Pending(got, line[..], fp.rest)
      invariant SoFar(total, result0, result, pending, sum)
      decreases got, |fp.rest|
    {
      ghost var more := Collected(fp.rest);
      var chunk: string := CString(line[..]);
      var len := |chunk|;
      OneLine(total, result0, result, chunk, more, sum);
      result := result + chunk;
      sum := Wrap(sum + len);
      got := NextLine(fp, line);
      pending := more;
    }
    AllLines(total, result0, result, sum);
  }

  /** systemCall; output is None when popen fails. */
  method SystemCall(cmd: Option<Text>, output: Option<string>, result0: string) returns (ret: int, result: string)
    ensures if cmd.None? || !Allowed(cmd.value) || output.None? then ret == -1 && result == result0
            else result == result0 + Collected(output.value) && ret == Wrap(|Collected(output.value)|)
    ensures cmd.Some? && Allowed(cmd.value) && output.Some? ==>
              (result == result0 + output.value <==> NUL !in output.value)
  {
    result := result0;
    var ok := CheckSyscallPerm(cmd);
    if !ok || output.None? {
      return -1, result;
    }
    var line := new char[LINE_SIZE](_ => NUL);
    var fp := new Stream(output.value);
    ret, result := Collect(fp, line, result0);
    CollectedIff(output.value);
    assert result[|result0|..] == Collected(output.value);
    assert (result0 + output.value)[|result0|..] == output.value;
  }
}
