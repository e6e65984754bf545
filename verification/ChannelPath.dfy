/** How a channel path is split into names (BasicChannel.cpp, lines 238-254). */
module ChannelPaths {

  const MAX_CHANNEL_DEEP: nat := 255

  /** The first slash at or behind `index`, or -1. */
  function FindSlash(path: string, index: nat): (r: int)
    requires index <= |path|
    ensures r == -1 || (index <= r < |path| && path[r] == '/')
    ensures forall i :: index <= i < (if r == -1 then |path| else r) ==> path[i] != '/'
    decreases |path| - index
  {
    if index == |path| then -1
    else if path[index] == '/' then index
    else FindSlash(path, index + 1)
  }

  /** The names found from `index` on when `count` names have been found in front. */
  function SplitFrom(path: string, index: nat, count: nat): seq<string>
    requires index <= |path| && count <= MAX_CHANNEL_DEEP
    decreases |path| - index
  {
    var found := FindSlash(path, index);
    if Skips(path, index, found) then SplitFrom(path, index + 1, count)
    else if found == -1 || count == MAX_CHANNEL_DEEP then [Name(path, index, found)]
    else [Name(path, index, found)] + SplitFrom(path, found + 1, count + 1)
  }

  /** A slash right here, or one that looks escaped: the loop goes on one character further. */
  predicate Skips(path: string, index: nat, found: int)
    requires found == -1 || index <= found < |path|
  {
    found == index || (found != -1 && path[found - 1] == '\\')
  }

  function Name(path: string, index: nat, found: int): string
    requires index <= |path| && (found == -1 || index <= found < |path|)
  {
    path[index..if found == -1 then |path| else found]
  }

  function Split(path: string): seq<string> {
    SplitFrom(path, 0, 0)
  }

  function Join(names: seq<string>): string {
    if names == [] then ""
    else if |names| == 1 then names[0]
    else names[0] + "/" + Join(names[1..])
  }

  // ------------------------------------------------------------------ what splitting yields

  predicate NoSlash(name: string) {
    forall i :: 0 <= i < |name| ==> name[i] != '/'
  }

  /** A name in front of a slash: not empty, and the slash does not look escaped. */
  predicate Inner(name: string) {
    NoSlash(name) && name != "" && name[|name| - 1] != '\\'
  }

  /** Names that can come out of a path when `count` came out in front of them: at least one and at most
      256 in all, without slashes, and all but the last inner ones. */
  ghost predicate Canonical(names: seq<string>, count: nat) {
    && names != [] && |names| + count <= MAX_CHANNEL_DEEP + 1
    && NoSlash(names[|names| - 1])
    && forall i :: 0 <= i < |names| - 1 ==> Inner(names[i])
  }

  lemma {:induction false} SplitCanonical(path: string, index: nat, count: nat)
    requires index <= |path| && count <= MAX_CHANNEL_DEEP
    ensures Canonical(SplitFrom(path, index, count), count)
    decreases |path| - index
  {
    var found := FindSlash(path, index);
    if Skips(path, index, found) {
      SplitCanonical(path, index + 1, count);
    } else if found != -1 {
      var name := Name(path, index, found);
      assert name[|name| - 1] == path[found - 1];
      if count < MAX_CHANNEL_DEEP {
        var more := SplitFrom(path, found + 1, count + 1);
        SplitCanonical(path, found + 1, count + 1);
        ConsCanonical(name, more, count);
      }
    }
  }

  lemma ConsCanonical(name: string, more: seq<string>, count: nat)
    requires Inner(name) && Canonical(more, count + 1)
    ensures Canonical([name] + more, count)
  {
    var names := [name] + more;
    forall i | 0 <= i < |names| - 1 ensures Inner(names[i]) {
      assert i > 0 ==> names[i] == more[i - 1];
    }
  }

  lemma FindsSlash(path: string, index: nat, stop: nat)
    requires index <= stop <= |path| && NoSlash(path[index..stop])
    ensures FindSlash(path, index) == if stop == |path| then -1 else FindSlash(path, stop)
    decreases stop - index
  {
    if index < stop {
      assert path[index..stop][0] == path[index];
      assert path[index + 1..stop] == path[index..stop][1..];
      FindsSlash(path, index + 1, stop);
    }
  }

  lemma PathParts(before: string, name: string, rest: string)
    ensures var path, stop := before + (name + "/" + rest), |before| + |name|;
            && stop < |path| && path[|before|..stop] == name && path[stop] == '/'
            && path == (before + name + "/") + rest && stop + 1 == |before + name + "/"|
            && (name != "" ==> path[stop - 1] == name[|name| - 1])
  {
  }

  /** Names joined behind a prefix come out again. */
  lemma {:induction false} SplitOfJoined(before: string, names: seq<string>, count: nat)
    requires count <= MAX_CHANNEL_DEEP && Canonical(names, count)
    ensures SplitFrom(before + Join(names), |before|, count) == names
    decreases |names|
  {
    var name := names[0];
    if |names| == 1 {
      SplitLast(before, name, count);
    } else {
      CanonicalTail(names, count);
      var rest := Join(names[1..]);
      SplitFirst(before, name, rest, count);
      SplitOfJoined(before + name + "/", names[1..], count + 1);
      assert Join(names) == name + "/" + rest;
      assert names == [name] + names[1..];
    }
  }

  lemma SplitLast(before: string, name: string, count: nat)
    requires NoSlash(name) && count <= MAX_CHANNEL_DEEP
    ensures SplitFrom(before + name, |before|, count) == [name]
  {
    var path := before + name;
    assert path[|before|..|path|] == name;
    FindsSlash(path, |before|, |path|);
  }

  lemma SplitFirst(before: string, name: string, rest: string, count: nat)
    requires Inner(name) && count < MAX_CHANNEL_DEEP
    ensures SplitFrom(before + (name + "/" + rest), |before|, count) ==
            [name] + SplitFrom((before + name + "/") + rest, |before + name + "/"|, count + 1)
  {
    var path, stop := before + (name + "/" + rest), |before| + |name|;
    PathParts(before, name, rest);
    FindsSlash(path, |before|, stop);
    assert FindSlash(path, stop) == stop;
  }

  lemma CanonicalTail(names: seq<string>, count: nat)
    requires Canonical(names, count) && |names| > 1
    ensures Canonical(names[1..], count + 1) && Inner(names[0])
  {
    forall i | 0 <= i < |names[1..]| - 1 ensures Inner(names[1..][i]) {
      assert names[1..][i] == names[i + 1];
    }
  }

  /** Splitting a joined path gives the names back exactly if they are canonical: there is at least one
      and are at most 256 of them, none holds a slash, and none but the last is empty or ends with a
      backslash. */
  lemma SplitInvertsJoinIff(names: seq<string>)
    ensures Split(Join(names)) == names <==> Canonical(names, 0)
  {
    SplitCanonical(Join(names), 0, 0);
    if Canonical(names, 0) {
      SplitOfJoined("", names, 0);
      assert "" + Join(names) == Join(names);
    }
  }

  /** An escaped slash neither splits nor stays: it takes the name in front of it away. */
  lemma {:induction false} EscapedSlashDropsName(path: string, index: nat, count: nat)
    requires index <= |path| && count <= MAX_CHANNEL_DEEP
    requires FindSlash(path, index) > 0 && path[FindSlash(path, index) - 1] == '\\'
    ensures SplitFrom(path, index, count) == SplitFrom(path, FindSlash(path, index) + 1, count)
    decreases |path| - index
  {
    var found := FindSlash(path, index);
    if index < found {
      assert FindSlash(path, index + 1) == found;
      EscapedSlashDropsName(path, index + 1, count);
    }
  }

  // ------------------------------------------------------------------ the laws of splitting

  /** How every path is split from `index` on, where `name` is what stands there up to the next slash or the end: a
      slash is skipped, and so is a name that ends with a backslash; any other name in front of a slash is found, and
      up to 255 of them are followed by more; what is left without a slash is a name. */
  lemma SplitLaws(path: string, index: nat, stop: nat, count: nat)
    requires index <= stop <= |path| && NoSlash(path[index..stop]) && count <= MAX_CHANNEL_DEEP
    requires stop < |path| ==> path[stop] == '/'
    ensures var name, names := path[index..stop], SplitFrom(path, index, count);
      if stop == |path| then names == [name]
      else if name == "" || path[stop - 1] == '\\' then names == SplitFrom(path, stop + 1, count)
      else if count == 255 then names == [name]
      else names == [name] + SplitFrom(path, stop + 1, count + 1)
  {
    FindsSlash(path, index, stop);
    if stop < |path| {
      assert FindSlash(path, stop) == stop;
      if index < stop && path[stop - 1] == '\\' {
        EscapedSlashDropsName(path, index, count);
      }
    }
  }

  // ------------------------------------------------------------------ the loop

  /** What is still to come completes the names found so far. */
  ghost predicate Pending(names: seq<string>, path: string, index: nat) {
    && index <= |path| && |names| <= MAX_CHANNEL_DEEP
    && names + SplitFrom(path, index, |names|) == Split(path)
  }

  lemma PendingStep(names: seq<string>, path: string, index: nat)
    requires Pending(names, path, index)
    ensures var found := FindSlash(path, index);
            if Skips(path, index, found) then Pending(names, path, index + 1)
            else
              var more := names + [Name(path, index, found)];
              if found == -1 || |more| > MAX_CHANNEL_DEEP then more == Split(path) else Pending(more, path, found + 1)
  {
    var found := FindSlash(path, index);
    if !Skips(path, index, found) && found != -1 && |names| < MAX_CHANNEL_DEEP {
      var name, rest := Name(path, index, found), SplitFrom(path, found + 1, |names| + 1);
      assert names + ([name] + rest) == names + [name] + rest;
    }
  }

  /** The splitting loop, which ends on every path. `unescape` is applied to every name. */
  method SplitPath(path: string, unescape: string -> string) returns (entries: seq<string>)
    ensures entries == Unescaped(Split(path), unescape)
  {
    entries := [];
    ghost var names: seq<string> := [];
    var index: nat := 0;
    var more := true;
    while more
      invariant entries == Unescaped(names, unescape)
      invariant if more then Pending(names, path, index) else names == Split(path)
      decreases more, |path| - index
    {
      var found := FindSlash(path, index);
      PendingStep(names, path, index);
      if found == index {
        index := index + 1;
      } else if found != -1 && path[found - 1] == '\\' {
        index := index + 1;
      } else {
        var name := Name(path, index, found);
        UnescapedAppend(names, name, unescape);
        entries, names := entries + [unescape(name)], names + [name];
        index := found + 1;
        more := index != 0 && |entries| <= MAX_CHANNEL_DEEP;
      }
    }
  }

  function Unescaped(names: seq<string>, unescape: string -> string): (r: seq<string>)
    ensures |r| == |names| && forall i :: 0 <= i < |names| ==> r[i] == unescape(names[i])
  {
    seq(|names|, i requires 0 <= i < |names| => unescape(names[i]))
  }

  lemma UnescapedAppend(names: seq<string>, name: string, unescape: string -> string)
    ensures Unescaped(names + [name], unescape) == Unescaped(names, unescape) + [unescape(name)]
  {
  }
}
