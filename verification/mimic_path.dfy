/**
 The disguise path: the path a client asks for and the path a server takes for its tunnel (BuildURLWithFakePath,
 mimicPath, the routes and the path check of validate), for plain paths of letters, digits and "/-_.~{}".
 */
module MimicPath {
  import opened Bytes
  import opened Targets

  const SLASH := 47
  const DOT := 46
  const OPEN := 123
  const CLOSE := 125
  const RAND: Text := [123, 114, 97, 110, 100, 125] // "{rand}"
  const TUNNEL: Text := [47, 116, 117, 110, 110, 101, 108] // "/tunnel"

  predicate Alphanumeric(c: byte) {
    48 <= c <= 57 || 65 <= c <= 90 || 97 <= c <= 122
  }

  predicate PlainByte(c: byte) {
    Alphanumeric(c) || c == SLASH || c == DOT || c == OPEN || c == CLOSE || c == 45 || c == 95 || c == 126
  }

  predicate Plain(p: Text) {
    forall i :: 0 <= i < |p| ==> PlainByte(p[i])
  }

  predicate Token(t: Text) {
    |t| == 8 && forall i :: 0 <= i < |t| ==> Alphanumeric(t[i])
  }

  predicate StartsWith(s: Text, c: byte) {
    s != [] && s[0] == c
  }

  predicate EndsWith(s: Text, c: byte) {
    s != [] && s[|s| - 1] == c
  }

  /** What stands before the first `c`. */
  function Before(s: Text, c: byte): (t: Text)
    ensures t <= s && c !in t
    ensures t == s || s[|t|] == c
  {
    if s == [] || s[0] == c then [] else
    var t := Before(s[1..], c);
    assert s == [s[0]] + s[1..];
    [s[0]] + t
  }

  // ---- the client ----

  /** strings.ReplaceAll(s, "{rand}", token). */
  function ReplaceRand(s: Text, token: Text): Text {
    if s == [] then []
    else if RAND <= s then token + ReplaceRand(s[|RAND|..], token)
    else [s[0]] + ReplaceRand(s[1..], token)
  }

  function HasRand(s: Text): bool {
    s != [] && (RAND <= s || HasRand(s[1..]))
  }

  function WithSlash(p: Text): (r: Text)
    ensures StartsWith(r, SLASH)
  {
    if StartsWith(p, SLASH) then p else [SLASH] + p
  }

  /**
   The path in the client's request. Without "{rand}" the fake path is put right behind the domain, so what stands
   before its first "/" becomes part of the host name; there a brace makes the URL invalid.
   */
  function Requested(fakePath: Text, token: Text): Option<Text> {
    if fakePath == [] then Some([SLASH])
    else if HasRand(fakePath) then Some(WithSlash(ReplaceRand(fakePath, token)))
    else
      var host := Before(fakePath, SLASH);
      if OPEN in host || CLOSE in host then None else Some(WithSlash(fakePath[|host|..]))
  }

  // ---- the server ----

  /** mimicPath. */
  function TunnelPath(fakePath: Text): Text {
    WithSlash(if fakePath == [] then TUNNEL else fakePath)
  }

  function Prefix(fakePath: Text): Text {
    Before(TunnelPath(fakePath), OPEN)
  }

  /** The router panics when "/" is registered twice. */
  predicate Starts(fakePath: Text) {
    Prefix(fakePath) != [SLASH]
  }

  /** The segment behind the slash at the front is empty, "." or "..", and is not the empty one at the end. */
  predicate Unclean(p: Text) {
    && StartsWith(p, SLASH)
    && |p| >= 2
    && (p[1] == SLASH || (p[1] == DOT && (|p| == 2 || p[2] == SLASH || (p[2] == DOT && (|p| == 3 || p[3] == SLASH)))))
  }

  /** The router redirects every request whose path it would write differently. */
  predicate Clean(p: Text) {
    p == [] || (!Unclean(p) && Clean(p[1..]))
  }

  /** The routes: a pattern stands for itself or, if it ends in a slash, for everything below it. */
  predicate Routed(fakePath: Text, path: Text) {
    var prefix := Prefix(fakePath);
    Clean(path) && (path == prefix || path == TUNNEL || (EndsWith(prefix, SLASH) && prefix <= path))
  }

  /** The path check of validate. */
  predicate Validated(fakePath: Text, path: Text) {
    (if fakePath == [] then TUNNEL else Before(fakePath, OPEN)) <= path
  }

  predicate Accepted(fakePath: Text, path: Text) {
    Starts(fakePath) && Routed(fakePath, path) && Validated(fakePath, path)
  }

  /** When a client and a server with the same fake path meet. */
  predicate Meets(fakePath: Text) {
    var prefix := Before(fakePath, OPEN);
    && StartsWith(fakePath, SLASH)
    && Clean(fakePath)
    && prefix != [SLASH]
    && (prefix == fakePath || EndsWith(prefix, SLASH))
  }

  // ---- replacing ----

  /** Replacing keeps what stands before the first brace, and does not lose what follows. */
  lemma {:induction false} ReplaceKeepsPrefix(s: Text, token: Text)
    requires token != []
    ensures Before(s, OPEN) <= ReplaceRand(s, token)
    ensures Before(s, OPEN) != s ==> Before(s, OPEN) != ReplaceRand(s, token)
  {
    if s != [] && s[0] != OPEN {
      ReplaceKeepsPrefix(s[1..], token);
    }
  }

  lemma {:induction false} ReplaceNothing(s: Text, token: Text)
    requires !HasRand(s)
    ensures ReplaceRand(s, token) == s
  {
    if s != [] {
      ReplaceNothing(s[1..], token);
    }
  }

  lemma {:induction false} RandHasOpen(s: Text)
    requires HasRand(s)
    ensures Before(s, OPEN) != s
  {
    if !(RAND <= s) {
      RandHasOpen(s[1..]);
    }
  }

  /** Where replacing starts with a byte that is no brace, it keeps this byte; else it starts with no slash or dot. */
  lemma ReplaceFront(s: Text, token: Text)
    requires Token(token)
    ensures ReplaceRand(s, token) == [] <==> s == []
    ensures s != [] && s[0] != OPEN ==> ReplaceRand(s, token) == [s[0]] + ReplaceRand(s[1..], token)
    ensures s != [] && s[0] == OPEN ==> ReplaceRand(s, token)[0] != SLASH && ReplaceRand(s, token)[0] != DOT
  {
    if RAND <= s {
      assert Alphanumeric(token[0]);
    }
  }

  lemma UncleanReplaced(s: Text, token: Text)
    requires Token(token)
    ensures Unclean(ReplaceRand(s, token)) == Unclean(s)
  {
    ReplaceFront(s, token);
    if StartsWith(s, SLASH) {
      ReplaceFront(s[1..], token);
      if StartsWith(s[1..], DOT) {
        ReplaceFront(s[2..], token);
        if StartsWith(s[2..], DOT) {
          ReplaceFront(s[3..], token);
        }
      }
    }
  }

  lemma {:induction false} CleanBehind(a: Text, s: Text)
    requires SLASH !in a
    ensures Clean(a + s) == Clean(s)
  {
    if a != [] {
      assert (a + s)[1..] == a[1..] + s;
      CleanBehind(a[1..], s);
    } else {
      assert a + s == s;
    }
  }

  lemma {:induction false} CleanReplaced(s: Text, token: Text)
    requires Token(token)
    ensures Clean(ReplaceRand(s, token)) == Clean(s)
  {
    if s == [] {
    } else if RAND <= s {
      var rest := s[|RAND|..];
      CleanReplaced(rest, token);
      assert s == RAND + rest;
      CleanBehind(RAND, rest);
      assert SLASH !in token by {
        assert forall i :: 0 <= i < |token| ==> Alphanumeric(token[i]);
      }
      CleanBehind(token, ReplaceRand(rest, token));
    } else {
      CleanReplaced(s[1..], token);
      UncleanReplaced(s, token);
      assert ReplaceRand(s, token)[1..] == ReplaceRand(s[1..], token);
    }
  }

  lemma {:induction false} ReplacedIsLong(s: Text, token: Text)
    requires Token(token) && HasRand(s)
    ensures |ReplaceRand(s, token)| >= 8
  {
    if !(RAND <= s) {
      ReplacedIsLong(s[1..], token);
    }
  }

  /** Replacing goes from front to back and replaces every "{rand}". */
  lemma {:induction false} ReplaceOne(front: Text, rest: Text, token: Text)
    requires OPEN !in front
    ensures ReplaceRand(front + RAND + rest, token) == front + token + ReplaceRand(rest, token)
  {
    var s := front + RAND + rest;
    if front == [] {
      assert s == RAND + rest && s[|RAND|..] == rest;
    } else {
      assert s[0] == front[0] && s[1..] == front[1..] + RAND + rest;
      ReplaceOne(front[1..], rest, token);
    }
  }

  lemma {:induction false} HasRandBehind(a: Text, s: Text)
    requires OPEN !in a
    ensures HasRand(a + s) == HasRand(s)
  {
    if a == [] {
      assert a + s == s;
    } else {
      assert (a + s)[1..] == a[1..] + s && (a + s)[0] == a[0];
      HasRandBehind(a[1..], s);
    }
  }

  /** Of "{rand}" from its byte k on, replacing makes nothing new. */
  lemma {:induction false} RandNotFormed(s: Text, token: Text, k: nat)
    requires Token(token) && 1 <= k <= 6
    ensures RAND[k..] <= ReplaceRand(s, token) ==> RAND[k..] <= s
    decreases 6 - k
  {
    var r := ReplaceRand(s, token);
    if k < 6 && s != [] {
      assert RAND[k..] == [RAND[k]] + RAND[k + 1..] && RAND[k..][5 - k] == CLOSE;
      if RAND <= s {
        assert r[5 - k] == token[5 - k] && Alphanumeric(token[5 - k]);
      } else {
        RandNotFormed(s[1..], token, k + 1);
        assert r == [s[0]] + ReplaceRand(s[1..], token) && s == [s[0]] + s[1..];
        assert RAND[k..] <= r ==> RAND[k + 1..] == RAND[k..][1..] <= r[1..] && RAND[k] == RAND[k..][0] == r[0];
      }
    }
  }

  /** So none is left. */
  lemma {:induction false} NoRandLeft(s: Text, token: Text)
    requires Token(token)
    ensures !HasRand(ReplaceRand(s, token))
  {
    if s != [] {
      if RAND <= s {
        NoRandLeft(s[|RAND|..], token);
        assert OPEN !in token by {
          assert forall i :: 0 <= i < |token| ==> Alphanumeric(token[i]);
        }
        HasRandBehind(token, ReplaceRand(s[|RAND|..], token));
      } else {
        NoRandLeft(s[1..], token);
        var r := ReplaceRand(s, token);
        assert r[1..] == ReplaceRand(s[1..], token);
        assert RAND <= r ==> RAND[1..] <= r[1..] && r[0] == s[0] == RAND[0];
        assert s == [s[0]] + s[1..] && RAND == [RAND[0]] + RAND[1..];
        RandNotFormed(s[1..], token, 1);
      }
    }
  }

  /** Without "{rand}" the client asks for what stands from the first slash on, or for "/"; the rest joins the host. */
  lemma PathBehindHost(host: Text, rest: Text, token: Text)
    requires SLASH !in host && (rest == [] || rest[0] == SLASH) && !HasRand(host + rest) && host + rest != []
    ensures Requested(host + rest, token)
         == if OPEN in host || CLOSE in host then None else Some(if rest == [] then [47] else rest)
  {
    BeforeFirst(host, rest, SLASH);
    var p := host + rest;
    assert p[|host|..] == rest;
    assert [SLASH] + [] == [SLASH];
  }

  lemma {:induction false} BeforeFirst(front: Text, rest: Text, c: byte)
    requires c !in front && (rest == [] || rest[0] == c)
    ensures Before(front + rest, c) == front
  {
    if front != [] {
      assert (front + rest)[1..] == front[1..] + rest && (front + rest)[0] == front[0];
      BeforeFirst(front[1..], rest, c);
    } else {
      assert front + rest == rest;
    }
  }

  // ---- what clean means ----

  /** A segment of a path: what stands behind the slash at i, up to the next slash or the end at j. */
  predicate Segment(p: Text, i: nat, j: nat) {
    && i < j <= |p| && p[i] == SLASH && (j == |p| || p[j] == SLASH)
    && forall k :: i < k < j ==> p[k] != SLASH
  }

  predicate Tidy(p: Text, i: nat, j: nat)
    requires i < j <= |p|
  {
    p[i + 1..j] != [46] && p[i + 1..j] != [46, 46] && (p[i + 1..j] == [] ==> j == |p|)
  }

  lemma UncleanExactly(p: Text)
    ensures Unclean(p) <==> exists j :: Segment(p, 0, j) && !Tidy(p, 0, j)
  {
    if Unclean(p) {
      var j := if p[1] == SLASH then 1 else if |p| == 2 || p[2] == SLASH then 2 else 3;
      assert Segment(p, 0, j);
      assert j == 2 ==> p[1..j] == [46];
      assert j == 3 ==> p[1..j] == [46, 46];
    }
    forall j: nat | Segment(p, 0, j) && !Tidy(p, 0, j) ensures Unclean(p) {
      assert |p[1..j]| == j - 1;
      assert j >= 2 ==> p[1] == p[1..j][0];
      assert j >= 3 ==> p[2] == p[1..j][1];
    }
  }

  lemma SegmentBehind(p: Text, i: nat, j: nat)
    requires p != []
    ensures Segment(p[1..], i, j) <==> Segment(p, i + 1, j + 1)
    ensures Segment(p[1..], i, j) ==> (Tidy(p[1..], i, j) <==> Tidy(p, i + 1, j + 1))
  {
    var q := p[1..];
    assert forall k :: 0 <= k < |q| ==> q[k] == p[k + 1];
    if Segment(p, i + 1, j + 1) {
      assert forall k :: i < k < j ==> q[k] == p[k + 1];
    }
    if Segment(q, i, j) {
      forall k | i + 1 < k < j + 1 ensures p[k] != SLASH {
        assert p[k] == q[k - 1];
      }
      assert q[i + 1..j] == p[i + 2..j + 1];
    }
  }

  /** A path is clean if and only if no segment is "." or "..", and none but the last one is empty. */
  lemma {:induction false} CleanExactly(p: Text)
    ensures Clean(p) <==> forall i, j :: Segment(p, i, j) ==> Tidy(p, i, j)
  {
    if p != [] {
      CleanExactly(p[1..]);
      UncleanExactly(p);
      if forall i, j :: Segment(p, i, j) ==> Tidy(p, i, j) {
        forall i: nat, j: nat | Segment(p[1..], i, j) ensures Tidy(p[1..], i, j) {
          SegmentBehind(p, i, j);
        }
      }
      if Clean(p) {
        forall i: nat, j: nat | Segment(p, i, j) ensures Tidy(p, i, j) {
          if i > 0 {
            SegmentBehind(p, i - 1, j - 1);
          }
        }
      }
    }
  }

  // ---- client and server ----

  /** For a path that starts with a slash the client's path has the prefix that validate checks, whatever the token. */
  lemma PrefixServes(fakePath: Text, token: Text)
    requires StartsWith(fakePath, SLASH) && token != []
    ensures Requested(fakePath, token) == Some(ReplaceRand(fakePath, token))
    ensures Validated(fakePath, ReplaceRand(fakePath, token))
  {
    ReplaceKeepsPrefix(fakePath, token);
    ReplaceFrontSlash(fakePath, token);
    if !HasRand(fakePath) {
      ReplaceNothing(fakePath, token);
      assert Before(fakePath, SLASH) == [];
    }
  }

  lemma SlashPathRouted(fakePath: Text, token: Text)
    requires StartsWith(fakePath, SLASH) && Token(token)
    ensures var path := ReplaceRand(fakePath, token); Starts(fakePath) && Routed(fakePath, path) <==> Meets(fakePath)
  {
    CleanReplaced(fakePath, token);
    ReplaceKeepsPrefix(fakePath, token);
    if HasRand(fakePath) {
      RandHasOpen(fakePath);
      ReplacedIsLong(fakePath, token);
    } else {
      ReplaceNothing(fakePath, token);
      TunnelHasNoOpen();
    }
  }

  lemma TunnelHasNoOpen()
    ensures Before(TUNNEL, OPEN) == TUNNEL
  {
    assert OPEN !in TUNNEL;
    assert Before(TUNNEL, OPEN) <= TUNNEL;
  }

  lemma ReplaceFrontSlash(s: Text, token: Text)
    requires StartsWith(s, SLASH)
    ensures StartsWith(ReplaceRand(s, token), SLASH)
  {
  }

  /** Without the slash validate refuses every request that the server can get. */
  lemma NoSlashNoPrefix(fakePath: Text, path: Text)
    requires !StartsWith(fakePath, SLASH) && Starts(fakePath) && StartsWith(path, SLASH) && fakePath != []
    ensures !Validated(fakePath, path)
  {
    assert TunnelPath(fakePath) == [SLASH] + fakePath;
    assert TunnelPath(fakePath)[1..] == fakePath;
    assert Prefix(fakePath) == [SLASH] + Before(fakePath, OPEN);
  }

  /**
   A client and a server with the same plain fake path meet, whatever the token, if and only if the path is clean,
   starts with a slash, has more than the slash before its first brace, and has no brace or its first one right
   behind a slash.
   */
  lemma ClientMeetsServer(fakePath: Text, token: Text)
    requires Plain(fakePath) && Token(token)
    ensures Requested(fakePath, token).Some? && Accepted(fakePath, Requested(fakePath, token).value)
       <==> Meets(fakePath)
  {
    if StartsWith(fakePath, SLASH) {
      PrefixServes(fakePath, token);
      SlashPathRouted(fakePath, token);
    } else if fakePath != [] && Requested(fakePath, token).Some? && Starts(fakePath) {
      NoSlashNoPrefix(fakePath, Requested(fakePath, token).value);
    }
  }

  // ---- paths that do not work ----

  /** With "{rand}" in the middle of a segment, as in "/s{rand}", the router hands the request to the decoy page. */
  lemma RandAmidSegment(front: Text, rest: Text)
    requires OPEN !in front && front != [] && !EndsWith(front, SLASH)
    ensures !Meets(front + RAND + rest)
  {
    ConcatAssociative(front, RAND, rest);
    BeforeFirst(front, RAND + rest, OPEN);
    assert |front + RAND + rest| > |front|;
  }

  /** With "{rand}" right behind the leading slash, as in "/{rand}", the server panics at start. */
  lemma RandAtRoot(rest: Text)
    ensures !Starts([SLASH] + RAND + rest) && !Meets([SLASH] + RAND + rest)
  {
    ConcatAssociative([SLASH], RAND, rest);
    BeforeFirst([SLASH], RAND + rest, OPEN);
  }
}
