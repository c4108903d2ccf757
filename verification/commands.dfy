/**
 The static movement tables and the classification of one UDP text message
 into a stop, a move (direction vector plus duty level) or nothing.
 */
module Commands {
  import opened Text
  import opened Motors

  /** Single-token commands (Serbian: forward, back, left, right, rotate
      left, rotate right, stop). */
  const Movements: map<string, Vector> := map[
    "napred"    := [1, 1, 1, 1],
    "nazad"     := [-1, -1, -1, -1],
    "levo"      := [-1, 1, -1, 1],
    "desno"     := [1, -1, 1, -1],
    "rot_levo"  := [-1, -1, 1, 1],
    "rot_desno" := [1, 1, -1, -1],
    "stop"      := [0, 0, 0, 0]
  ]

  /** Two-token diagonals, keyed by the unordered pair of tokens. */
  const Diagonals: map<set<string>, Vector> := map[
    {"napred", "desno"} := [1, 1, 0, 0],
    {"napred", "levo"}  := [0, 0, 1, 1],
    {"nazad", "desno"}  := [-1, -1, 0, 0],
    {"nazad", "levo"}   := [0, 0, -1, -1]
  ]

  const RotationCmds: set<string> := {"rot_levo", "rot_desno"}

  /** Duty levels in percent of the enable line's full scale. */
  const SpeedNormal: nat := 30
  const SpeedRotation: nat := 15

  const StopToken: string := "stop"

  /** What one message asks of the actuator. */
  datatype Command = Halt | Move(vector: Vector, duty: nat) | Ignore

  /** The duty a single token runs at: the rotation speed for the two
      rotations, normal speed for everything else. */
  function SpeedFor(token: string): (speed: nat)
    ensures speed == SpeedRotation <==> token in RotationCmds
    ensures token !in RotationCmds ==> speed == SpeedNormal
  {
    if token in RotationCmds then SpeedRotation else SpeedNormal
  }

  /** The message as looked up: stripped, lower-cased, split on `+`. */
  function Parts(msg: string): (parts: seq<string>)
    ensures |parts| >= 1
    ensures forall k :: 0 <= k < |parts| ==> '+' !in parts[k]
  {
    Split(Lower(Strip(msg)), '+')
  }

  function PartSet(parts: seq<string>): set<string> {
    set p | p in parts
  }

  /** The priority chain of datagram_received: stop anywhere wins; then one
      known token; then an unordered known pair of two parts; else nothing. */
  function Resolve(parts: seq<string>): (c: Command)
    ensures c == Halt <==> StopToken in parts
    ensures c.Move? ==> c.duty in {SpeedNormal, SpeedRotation} && c.vector != [0, 0, 0, 0]
    ensures c.Move? ==> |parts| == 1 || |parts| == 2
    ensures c.Move? && c.duty == SpeedRotation <==> |parts| == 1 && parts[0] in RotationCmds
  {
    var cmdSet := PartSet(parts);
    if StopToken in cmdSet then Halt
    else if |parts| == 1 && parts[0] in Movements then
      Move(Movements[parts[0]], SpeedFor(parts[0]))
    else if |parts| == 2 && cmdSet in Diagonals then
      Move(Diagonals[cmdSet], SpeedNormal)
    else Ignore
  }

  /** The whole lookup of datagram_received for one decoded message. */
  function Classify(msg: string): (c: Command)
    ensures c == Halt <==> StopToken in Parts(msg)
    ensures c.Move? ==> c.duty in {SpeedNormal, SpeedRotation} && c.vector != [0, 0, 0, 0]
    ensures c.Move? ==> |Parts(msg)| == 1 || |Parts(msg)| == 2
  {
    Resolve(Parts(msg))
  }

  /** One part, naming a table key other than stop. */
  predicate SingleShape(parts: seq<string>) {
    |parts| == 1 && parts[0] in Movements && parts[0] != StopToken
  }

  /** Two distinct parts that together form a diagonal key. */
  predicate PairShape(parts: seq<string>) {
    |parts| == 2 && parts[0] != parts[1] && {parts[0], parts[1]} in Diagonals
  }

  /** Both directions: a message moves the robot if and only if it is one
      known non-stop token or two distinct parts forming a diagonal key, and
      then it gets that token's vector at its speed, or that diagonal at
      normal speed. */
  lemma ResolveMoves(parts: seq<string>)
    ensures Resolve(parts).Move? <==> SingleShape(parts) || PairShape(parts)
    ensures SingleShape(parts) ==> Resolve(parts) == Move(Movements[parts[0]], SpeedFor(parts[0]))
    ensures PairShape(parts) ==> Resolve(parts) == Move(Diagonals[{parts[0], parts[1]}], SpeedNormal)
  {
    var c := Resolve(parts);
    if |parts| == 2 {
      assert PartSet(parts) == {parts[0], parts[1]};
      if parts[0] == parts[1] { assert PartSet(parts) == {parts[0]}; }
    }
    if c.Move? && |parts| == 2 {
      assert parts[0] != parts[1];
    }
  }

  /** The same two directions for a whole message, over its normalised
      parts. */
  lemma ClassifyMoves(msg: string)
    ensures Classify(msg).Move? <==> SingleShape(Parts(msg)) || PairShape(Parts(msg))
    ensures SingleShape(Parts(msg)) ==> Classify(msg) == Move(Movements[Parts(msg)[0]], SpeedFor(Parts(msg)[0]))
    ensures PairShape(Parts(msg)) ==> Classify(msg) == Move(Diagonals[{Parts(msg)[0], Parts(msg)[1]}], SpeedNormal)
  {
    ResolveMoves(Parts(msg));
  }

  /** Messages with three or more parts never move the robot. */
  lemma ResolveRejectsLong(parts: seq<string>)
    requires |parts| >= 3
    ensures Resolve(parts) == Halt || Resolve(parts) == Ignore
  {
  }

  /** The resolution only depends on how many parts there are and which
      distinct parts occur, never on their order. */
  lemma ResolveOrderFree(p: seq<string>, q: seq<string>)
    requires |p| == |q| && PartSet(p) == PartSet(q)
    ensures Resolve(p) == Resolve(q)
  {
    if |p| == 1 {
      assert p[0] in PartSet(q);
      assert p == q;
    }
  }

  /** The characters table keys are made of. */
  predicate TokenChar(c: char) {
    'a' <= c <= 'z' || c == '_'
  }

  predicate Plain(s: string) {
    forall k :: 0 <= k < |s| ==> TokenChar(s[k])
  }

  /** Plain tokens joined with `+`. */
  predicate PlainWire(s: string) {
    forall k :: 0 <= k < |s| ==> TokenChar(s[k]) || s[k] == '+'
  }

  lemma TableKeysPlain()
    ensures forall t :: t in Movements ==> Plain(t)
    ensures forall d :: d in Diagonals ==> forall t :: t in d ==> Plain(t)
  {
  }

  /** Stripping and lower-casing leave a `+`-joined list of plain tokens as
      it is. */
  lemma NormalizePlain(s: string)
    requires PlainWire(s)
    ensures Lower(Strip(s)) == s
  {
    if |s| > 0 {
      assert !IsSpace(s[0]) && !IsSpace(s[|s| - 1]);
    }
    StripBare(s);
    LowerOfLower(s);
  }

  lemma {:induction false} PlainJoin(tokens: seq<string>)
    requires |tokens| >= 1
    requires forall k :: 0 <= k < |tokens| ==> Plain(tokens[k])
    ensures PlainWire(Join(tokens, '+'))
    decreases |tokens|
  {
    if |tokens| > 1 {
      PlainJoin(tokens[1..]);
      var head, tail := tokens[0], Join(tokens[1..], '+');
      assert Plain(head);
      forall k | 0 <= k < |head + "+" + tail|
        ensures TokenChar((head + "+" + tail)[k]) || (head + "+" + tail)[k] == '+'
      {
        if k < |head| {
          assert (head + "+" + tail)[k] == head[k];
        } else if k > |head| {
          assert (head + "+" + tail)[k] == tail[k - |head| - 1];
        }
      }
    } else {
      assert Plain(tokens[0]);
    }
  }

  /** The parts of a `+`-joined list of plain tokens are those tokens. */
  lemma PartsOfPlain(tokens: seq<string>)
    requires |tokens| >= 1
    requires forall k :: 0 <= k < |tokens| ==> Plain(tokens[k])
    ensures Parts(Join(tokens, '+')) == tokens
  {
    var msg := Join(tokens, '+');
    PlainJoin(tokens);
    NormalizePlain(msg);
    assert Parts(msg) == Split(msg, '+');
    forall k | 0 <= k < |tokens| ensures '+' !in tokens[k] {
      assert Plain(tokens[k]);
    }
    SplitJoin(tokens, '+');
  }

  /** Each single-token command, sent alone, selects its table entry at the
      rotation speed exactly for the two rotations; stop alone halts. */
  lemma ClassifySingle(t: string)
    requires t in Movements
    ensures t == StopToken ==> Classify(t) == Halt
    ensures t != StopToken ==> Classify(t) == Move(Movements[t], SpeedFor(t))
    ensures t != StopToken ==> (Classify(t).duty == SpeedRotation <==> t in RotationCmds)
  {
    TableKeysPlain();
    PartsOfPlain([t]);
  }

  /** The two tokens of a diagonal key are distinct plain tokens. */
  lemma DiagonalTokens(a: string, b: string)
    requires {a, b} in Diagonals
    ensures a != b && Plain(a) && Plain(b)
  {
    TableKeysPlain();
    var d := {a, b};
    assert a in d && b in d;
    assert |d| == 2;
  }

  /** A known diagonal pair resolves to its vector at normal speed, in
      either order. */
  lemma ResolveDiagonal(a: string, b: string)
    requires {a, b} in Diagonals
    ensures Resolve([a, b]) == Move(Diagonals[{a, b}], SpeedNormal)
    ensures Resolve([b, a]) == Move(Diagonals[{a, b}], SpeedNormal)
  {
    var d := {a, b};
    assert StopToken !in d;
    assert PartSet([a, b]) == d;
    assert PartSet([b, a]) == d;
  }

  /** A diagonal is accepted in either order with the same vector. */
  lemma ClassifyDiagonal(a: string, b: string)
    requires {a, b} in Diagonals
    ensures Classify(a + "+" + b) == Move(Diagonals[{a, b}], SpeedNormal)
    ensures Classify(b + "+" + a) == Classify(a + "+" + b)
  {
    DiagonalTokens(a, b);
    assert Join([a, b], '+') == a + "+" + b;
    assert Join([b, a], '+') == b + "+" + a;
    PartsOfPlain([a, b]);
    PartsOfPlain([b, a]);
    ResolveDiagonal(a, b);
  }

  /** Stop anywhere in the message wins over whatever else it holds. */
  lemma ClassifyStopWins(msg: string)
    ensures Classify(msg) == Halt <==> StopToken in Parts(msg)
  {
  }

  /** Letter case is irrelevant. */
  lemma ClassifyCaseInsensitive(msg: string)
    ensures Classify(Lower(msg)) == Classify(msg)
  {
    StripLowerCommute(msg);
    LowerIdempotent(Strip(msg));
  }

  /** Whitespace around the whole message is irrelevant. */
  lemma ClassifyIgnoresMargins(msg: string, pre: string, post: string)
    requires AllSpace(pre) && AllSpace(post)
    ensures Classify(pre + msg + post) == Classify(msg)
  {
    StripPadded(msg, pre, post);
  }

  /** Each diagonal combines exactly one of forward/back with exactly one
      of left/right. */
  lemma DiagonalAxes()
    ensures forall d :: d in Diagonals ==> ("napred" in d <==> "nazad" !in d)
    ensures forall d :: d in Diagonals ==> ("levo" in d <==> "desno" !in d)
  {
  }

  /** Three moves at once are not a command. */
  lemma RejectsThreeTokens()
    ensures Classify("napred+nazad+levo") == Ignore
  {
    assert Join(["napred", "nazad", "levo"], '+') == "napred+nazad+levo";
    PartsOfPlain(["napred", "nazad", "levo"]);
  }

  /** A token paired with itself is one distinct token in two parts, which
      neither the single-token nor the diagonal rule accepts. */
  lemma RejectsRepeatedToken()
    ensures Classify("napred+napred") == Ignore
  {
    assert Join(["napred", "napred"], '+') == "napred+napred";
    PartsOfPlain(["napred", "napred"]);
    var d := PartSet(["napred", "napred"]);
    assert "levo" !in d && "desno" !in d;
    DiagonalAxes();
  }

  /** Opposite directions do not form a diagonal. */
  lemma RejectsOppositePair()
    ensures Classify("napred+nazad") == Ignore
  {
    assert Join(["napred", "nazad"], '+') == "napred+nazad";
    PartsOfPlain(["napred", "nazad"]);
    var d := PartSet(["napred", "nazad"]);
    assert "napred" in d && "nazad" in d;
    DiagonalAxes();
  }

  /** Every token of a diagonal is also a single-token command. */
  lemma DiagonalTokensKnown()
    ensures forall d :: d in Diagonals ==> forall t :: t in d ==> t in Movements
  {
  }

  /** Without a stop, one word outside the vocabulary anywhere in the
      message makes the whole message a no-op. */
  lemma ResolveUnknownToken(parts: seq<string>, k: int)
    requires 0 <= k < |parts| && parts[k] !in Movements
    requires StopToken !in parts
    ensures Resolve(parts) == Ignore
  {
    DiagonalTokensKnown();
    assert parts[k] in PartSet(parts);
  }

  /** A word outside the vocabulary is not a command. */
  lemma RejectsUnknownWord()
    ensures Classify("skok") == Ignore
  {
    PartsOfPlain(["skok"]);
    assert Parts("skok") == ["skok"];
    ResolveUnknownToken(["skok"], 0);
  }

  /** A message that neither starts nor ends on whitespace and has no
      capitals is looked up as it is. */
  lemma NormalizeBare(s: string)
    requires |s| > 0 && Bare(s)
    requires forall k :: 0 <= k < |s| ==> !IsUpper(s[k])
    ensures Lower(Strip(s)) == s
  {
    StripBare(s);
    LowerOfLower(s);
  }

  lemma PlainHasNoPlus(s: string)
    requires Plain(s)
    ensures '+' !in s
  {
  }

  /** The parts of `a +b`, for plain non-empty `a` and `b`. */
  lemma InnerBlankParts(a: string, b: string)
    requires |a| > 0 && |b| > 0 && Plain(a) && Plain(b)
    ensures Parts(a + " +" + b) == [a + " ", b]
  {
    var first := a + " ";
    var msg := a + " +" + b;
    assert Split(msg, '+') == [first, b] by {
      assert msg == Join([first, b], '+');
      PlainHasNoPlus(a);
      PlainHasNoPlus(b);
      assert first[|a|] == ' ';
      assert '+' !in first;
      SplitJoin([first, b], '+');
    }
    assert Lower(Strip(msg)) == msg by {
      assert forall k :: 0 <= k < |msg| ==> !IsUpper(msg[k]) by {
        forall k | 0 <= k < |msg| ensures !IsUpper(msg[k]) {
          if k < |a| { assert msg[k] == a[k]; }
          else if k > |a| + 1 { assert msg[k] == b[k - |a| - 2]; }
        }
      }
      assert msg[0] == a[0] && msg[|msg| - 1] == b[|b| - 1];
      NormalizeBare(msg);
    }
  }

  /** Only the margins of the whole message are stripped: a blank before
      the `+` stays inside the first part, which then matches nothing
      (so "napred +desno" is not the diagonal "napred+desno"). */
  lemma RejectsInnerBlank(a: string, b: string)
    requires |a| > 0 && |b| > 0 && Plain(a) && Plain(b) && b != StopToken
    ensures Classify(a + " +" + b) == Ignore
  {
    var first := a + " ";
    InnerBlankParts(a, b);
    TableKeysPlain();
    assert !Plain(first) by { assert first[|a|] == ' '; }
    assert first != StopToken;
    ResolveUnknownToken([first, b], 0);
  }
}
