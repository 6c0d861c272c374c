/** Names of backup files, and which of them a Backup's retention glob can reach. */
module BackupFilename {
  import opened GoStrings

  /** filepath.Match for patterns of literal characters and '*'. */
  predicate Glob(pattern: string, name: string)
    decreases |pattern| + |name|
  {
    if pattern == "" then name == ""
    else if pattern[0] == '*' then
      Glob(pattern[1..], name) || (name != "" && name[0] != '/' && Glob(pattern, name[1..]))
    else name != "" && name[0] == pattern[0] && Glob(pattern[1..], name[1..])
  }

  function Suffix(encrypted: bool): string {
    if encrypted then ".tar.gz.enc" else ".tar.gz"
  }

  /** The pattern deleteBackupsFromMountPath expands. */
  function RetentionPattern(name: string, uid: string, encrypted: bool): string {
    name + "-" + uid + "*" + Suffix(encrypted)
  }

  function Dashed(c: char): char {
    if c == ':' then '-' else c
  }

  /** generateBackupFilename, given the time, with the extension the upload adds. */
  function BackupFile(name: string, uid: string, rfc3339: string, encrypted: bool): string {
    name + "-" + uid + "-" + seq(|rfc3339|, i requires 0 <= i < |rfc3339| => Dashed(rfc3339[i])) + Suffix(encrypted)
  }

  predicate Digit(c: char) {
    '0' <= c <= '9'
  }

  /** Go's time.RFC3339: 2006-01-02T15:04:05Z or with a numeric zone. */
  predicate RFC3339(s: string) {
    && (|s| == 20 || |s| == 25)
    && s[4] == '-' && s[7] == '-' && s[10] == 'T' && s[13] == ':' && s[16] == ':'
    && (|s| == 20 ==> s[19] == 'Z')
    && (|s| == 25 ==> (s[19] == '+' || s[19] == '-') && s[22] == ':')
    && forall i | 0 <= i < |s| && i !in {4, 7, 10, 13, 16, 19, 22} :: Digit(s[i])
  }

  predicate Hex(c: char) {
    Digit(c) || 'a' <= c <= 'f' || 'A' <= c <= 'F'
  }

  /** The text form of a UUID, section 4 of RFC 9562. */
  predicate Uuid(u: string) {
    && |u| == 36
    && forall i | 0 <= i < 36 :: if i == 8 || i == 13 || i == 18 || i == 23 then u[i] == '-' else Hex(u[i])
  }

  /** Kubernetes names have neither separators nor any of the characters filepath.Match treats specially. */
  predicate PlainName(s: string) {
    '/' !in s && '*' !in s && '?' !in s && '[' !in s && '\\' !in s
  }

  /** What "prefix*suffix" matches. */
  predicate Framed(prefix: string, suffix: string, name: string) {
    && |prefix| + |suffix| <= |name|
    && prefix <= name && HasSuffix(name, suffix)
    && '/' !in name[|prefix|..|name| - |suffix|]
  }

  lemma {:induction false} GlobLiteral(lit: string, name: string)
    requires '*' !in lit
    ensures Glob(lit, name) <==> lit == name
  {
    if lit != "" && name != "" {
      GlobLiteral(lit[1..], name[1..]);
      assert lit == [lit[0]] + lit[1..] && name == [name[0]] + name[1..];
    }
  }

  lemma FramedTail(suffix: string, c: char, tail: string)
    requires |suffix| <= |tail|
    ensures Framed("", suffix, [c] + tail) <==> c != '/' && Framed("", suffix, tail)
  {
    var name := [c] + tail;
    var cut := |tail| - |suffix|;
    assert name[0..cut + 1] == [c] + tail[0..cut];
    assert '/' in [c] + tail[0..cut] <==> c == '/' || '/' in tail[0..cut];
    assert name[cut + 1..] == tail[cut..];
  }

  /** A star consumes nothing, or one character that is not a separator and then the rest. */
  lemma StarFramed(suffix: string, name: string)
    ensures Framed("", suffix, name) <==>
            suffix == name || (name != "" && name[0] != '/' && Framed("", suffix, name[1..]))
  {
    if |suffix| == |name| {
      assert name[0..] == name && name[0..0] == "";
    } else if |suffix| < |name| {
      assert name == [name[0]] + name[1..];
      FramedTail(suffix, name[0], name[1..]);
    }
  }

  lemma {:induction false} GlobStar(suffix: string, name: string)
    requires '*' !in suffix
    ensures Glob("*" + suffix, name) <==> Framed("", suffix, name)
    decreases |name|
  {
    hide Framed;
    var p := "*" + suffix;
    assert p[1..] == suffix && p[0] == '*';
    GlobLiteral(suffix, name);
    StarFramed(suffix, name);
    if name != "" {
      GlobStar(suffix, name[1..]);
    }
  }

  lemma {:induction false} GlobFramed(prefix: string, suffix: string, name: string)
    requires '*' !in prefix && '*' !in suffix
    ensures Glob(prefix + "*" + suffix, name) <==> Framed(prefix, suffix, name)
    decreases |prefix|
  {
    var p := prefix + "*" + suffix;
    if prefix == "" {
      assert p == "*" + suffix;
      GlobStar(suffix, name);
    } else if name != "" {
      assert p[1..] == prefix[1..] + "*" + suffix && p[0] == prefix[0];
      GlobFramed(prefix[1..], suffix, name[1..]);
      FramedCons(prefix, suffix, name);
    }
  }

  lemma FramedCons(prefix: string, suffix: string, name: string)
    requires prefix != "" && name != ""
    ensures Framed(prefix, suffix, name) <==> prefix[0] == name[0] && Framed(prefix[1..], suffix, name[1..])
  {
    var p, n := prefix[1..], name[1..];
    assert prefix == [prefix[0]] + p && name == [name[0]] + n;
    assert prefix <= name <==> prefix[0] == name[0] && p <= n;
    if |prefix| + |suffix| <= |name| {
      assert n[|n| - |suffix|..] == name[|name| - |suffix|..];
      assert n[|p|..|n| - |suffix|] == name[|prefix|..|name| - |suffix|];
    }
  }

  predicate Repeats(uid: string, d: nat, i: nat)
    requires d <= i < |uid|
  {
    uid[i] == uid[i - d]
  }

  /** Shifted by any amount that puts a hyphen in front, a UUID disagrees with itself. */
  lemma NoSelfOverlap(uid: string, d: nat) returns (i: nat)
    requires Uuid(uid) && 1 <= d <= 36
    ensures uid[d - 1] == '-' ==> d <= i < |uid| && !Repeats(uid, d, i)
  {
    i := d + if d == 24 then 8 else 4;
  }

  lemma LongerName(x: string, n: nat, m: nat, uid: string)
    requires |uid| == 36 && Uuid(uid) && n + 37 <= |x| && m + 37 <= |x| && x[m] == '-'
    requires x[n + 1..n + 37] == uid && x[m + 1..m + 37] == uid
    ensures m <= n || m >= n + 37
  {
    hide Uuid;
    if n < m < n + 37 {
      var d := m - n;
      assert forall j | 0 <= j < 36 :: uid[j] == x[n + 1..n + 37][j] == x[n + 1 + j];
      assert forall j | 0 <= j < 36 :: uid[j] == x[m + 1..m + 37][j] == x[m + 1 + j];
      assert uid[d - 1] == x[n + 1 + (d - 1)];
      forall i | d <= i < 36 ensures Repeats(uid, d, i) {
        assert uid[i] == x[n + 1 + i] && x[m + 1 + (i - d)] == uid[i - d];
      }
      var _ := NoSelfOverlap(uid, d);
    }
  }

  lemma ShorterName(x: string, n: nat, m: nat, uid: string, ts: string)
    requires |uid| == 36 && Uuid(uid) && 5 <= |ts| <= 25 && ts[4] == '-'
    requires n + 37 <= |x| <= m + 38 + |ts| + 11 && m + 38 + |ts| <= |x|
    requires x[n] == '-' && x[n + 1..n + 37] == uid
    requires x[m + 1..m + 37] == uid && x[m + 38..m + 38 + |ts|] == ts
    ensures m >= n
  {
    hide Uuid;
    if m < n {
      var d := n - m;
      assert 1 <= d <= 37;
      assert forall j | 0 <= j < 36 :: uid[j] == x[n + 1..n + 37][j] == x[n + 1 + j];
      assert forall j | 0 <= j < 36 :: uid[j] == x[m + 1..m + 37][j] == x[m + 1 + j];
      if d < 37 {
        assert uid[d - 1] == x[m + 1 + (d - 1)];
        forall i | d <= i < 36 ensures Repeats(uid, d, i) {
          assert uid[i] == x[m + 1 + i] && x[n + 1 + (i - d)] == uid[i - d];
        }
        var _ := NoSelfOverlap(uid, d);
      } else {
        assert uid[4] == x[n + 1 + 4] == x[m + 38..m + 38 + |ts|][4] == '-';
        FifthIsHex(uid);
      }
    }
  }

  lemma FifthIsHex(uid: string)
    requires Uuid(uid)
    ensures uid[4] != '-'
  {
  }

  /** A hyphen-separated UUID overlaps neither itself nor a timestamp: reading "A-uid" at the front of
      "B-uid-time..." forces A to be B, or B to contain all of "A-uid". */
  lemma PrefixForcesName(a: string, b: string, uid: string, ts: string, tail: string)
    requires |uid| == 36 && Uuid(uid) && 5 <= |ts| <= 25 && ts[4] == '-' && |tail| <= 11
    requires a + "-" + uid <= b + "-" + uid + "-" + ts + tail
    ensures a == b || a + "-" + uid <= b
  {
    hide Uuid;
    var p, x := a + "-" + uid, b + "-" + uid + "-" + ts + tail;
    var n, m := |a|, |b|;
    assert x[..n + 37] == p && x[..m] == b && x[m] == '-';
    assert x[m + 1..m + 37] == uid && x[m + 38..m + 38 + |ts|] == ts;
    assert x[..n] == p[..n] == a && x[n] == p[n] == '-';
    assert x[n + 1..n + 37] == p[n + 1..n + 37] == uid;
    LongerName(x, n, m, uid);
    ShorterName(x, n, m, uid, ts);
    if m >= n + 37 {
      assert b[..n + 37] == x[..m][..n + 37] == p;
    }
  }

  /** Which generated files a Backup's retention reaches in its cluster: those of the same encryption, of
      the Backup itself or of one whose name begins with this one's "name-uid". */
  lemma RetentionReachesIff(a: string, b: string, uid: string, time: string, encA: bool, encB: bool)
    requires PlainName(a) && PlainName(b) && Uuid(uid) && RFC3339(time)
    ensures Glob(RetentionPattern(a, uid, encA), BackupFile(b, uid, time, encB)) <==>
            encA == encB && (a == b || a + "-" + uid <= b)
  {
    var ts := seq(|time|, i requires 0 <= i < |time| => Dashed(time[i]));
    var prefix, x := a + "-" + uid, BackupFile(b, uid, time, encB);
    NoSeparators(uid, time, ts);
    GlobFramed(prefix, Suffix(encA), x);
    SuffixTells(b + "-" + uid + "-" + ts, encA, encB);
    if encA == encB {
      if prefix <= x {
        PrefixForcesName(a, b, uid, ts, Suffix(encB));
      }
      if a == b || prefix <= b {
        FramedWhenPrefixed(prefix, b + "-" + uid, ts, Suffix(encB));
      }
    }
  }

  lemma NoSeparators(uid: string, time: string, ts: string)
    requires Uuid(uid) && RFC3339(time)
    requires |ts| == |time| && forall i | 0 <= i < |ts| :: ts[i] == Dashed(time[i])
    ensures '*' !in uid && '/' !in uid && '/' !in ts && ts[4] == '-' && 5 <= |ts| <= 25
  {
    assert forall i | 0 <= i < |uid| :: uid[i] == '-' || Hex(uid[i]);
    assert forall i | 0 <= i < |ts| :: Digit(time[i]) || time[i] in {'-', 'T', ':', 'Z', '+'};
  }

  lemma SuffixTells(stem: string, encA: bool, encB: bool)
    ensures HasSuffix(stem + Suffix(encB), Suffix(encA)) <==> encA == encB
  {
    var x := stem + Suffix(encB);
    assert x[|stem|..] == Suffix(encB);
    if encA != encB && |Suffix(encA)| <= |x| {
      var cut := x[|x| - |Suffix(encA)|..];
      assert cut[|cut| - 1] == x[|x| - 1] == Suffix(encB)[|Suffix(encB)| - 1];
      assert Suffix(encA)[|Suffix(encA)| - 1] != Suffix(encB)[|Suffix(encB)| - 1];
    }
  }

  lemma FramedWhenPrefixed(prefix: string, stem: string, ts: string, suffix: string)
    requires prefix <= stem && '/' !in stem && '/' !in ts
    ensures Framed(prefix, suffix, stem + "-" + ts + suffix)
  {
    var body := stem + "-" + ts;
    var x := stem + "-" + ts + suffix;
    assert x == body + suffix && x[|body|..] == suffix && x[..|body|] == body;
    assert x[..|prefix|] == stem[..|prefix|] == prefix;
    assert '/' !in body;
    assert x[|prefix|..|body|] == body[|prefix|..];
  }
}
