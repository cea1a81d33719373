/** The digest of a command database: length-framed commands, hashed, sorted, and hashed again. */
module CommandDigest {
  import opened Prelude
  import opened Sorting
  import opened ShardBytes

  // ---- framing one command --------------------------------------------------------------------

  /** A field of a compile entry: the bytes of a string, or something that is no string. */
  datatype Field = Text(bytes: Bytes) | NoText

  datatype Entry = Entry(directory: Field, file: Field, arguments: Option<seq<Field>>)

  /** What identifies a command; other fields of the entry are metadata. */
  datatype Command = Command(directory: Bytes, file: Bytes, arguments: seq<Bytes>)

  function Decimal(n: nat): (r: Bytes)
    ensures r != [] && forall k :: 0 <= k < |r| ==> 48 <= r[k] <= 57
  {
    if n < 10 then [48 + n] else Decimal(n / 10) + [48 + n % 10]
  }

  const COLON: Byte := 58

  function Frame(field: Bytes): Bytes {
    Decimal(|field|) + [COLON] + field
  }

  function Framed(fields: seq<Bytes>): Bytes {
    if fields == [] then [] else Frame(fields[0]) + Framed(fields[1..])
  }

  predicate IsText(f: Field) {
    f.Text? && 0 !in f.bytes
  }

  function BytesOf(fields: seq<Field>): (r: seq<Bytes>)
    requires forall f :: f in fields ==> f.Text?
    ensures |r| == |fields|
  {
    seq(|fields|, k requires 0 <= k < |fields| => fields[k].bytes)
  }

  /** The command of an entry, or the reason why it has none. */
  function CommandOf(e: Entry): (r: Result<Command>) {
    if e.arguments.None? || e.arguments.value == [] then Err("compile entry must have nonempty arguments") else
    var fields := [e.directory, e.file] + e.arguments.value;
    if exists f :: f in fields && !IsText(f) then Err("compile entry fields must be strings without NUL") else
    assert fields[0] in fields && fields[1] in fields && forall f :: f in e.arguments.value ==> f in fields;
    var arguments := BytesOf(e.arguments.value);
    if e.directory.bytes == [] || e.file.bytes == [] || arguments[0] == [] then
      Err("compile entry must identify cwd, source and compiler")
    else Ok(Command(e.directory.bytes, e.file.bytes, arguments))
  }

  function Fields(c: Command): seq<Bytes> {
    [c.directory, c.file] + c.arguments
  }

  type Hash = Bytes -> string

  /** All a digest needs of every hash: its width in hexadecimal. */
  ghost predicate Wide(hash: Hash) {
    forall b :: |hash(b)| == 64
  }

  function HashOf(hash: Hash, c: Command): string {
    hash(Framed(Fields(c)))
  }

  /** The hash does not collide on the framed bytes of these two commands. */
  predicate Tells(hash: Hash, c: Command, d: Command) {
    HashOf(hash, c) == HashOf(hash, d) ==> Framed(Fields(c)) == Framed(Fields(d))
  }

  /** Nor on those of any two commands of the list: asked of the commands at hand, not of all there could be. */
  predicate NoCollision(hash: Hash, cs: seq<Command>) {
    forall c, d :: c in cs && d in cs ==> Tells(hash, c, d)
  }

  // ---- framing is injective -------------------------------------------------------------------

  lemma {:induction false} DecimalInjective(m: nat, n: nat)
    requires Decimal(m) == Decimal(n)
    ensures m == n
  {
    if m >= 10 && n >= 10 {
      DecimalParts(m);
      DecimalParts(n);
      DecimalInjective(m / 10, n / 10);
    } else {
      DecimalLength(m);
      DecimalLength(n);
      if m < 10 && n < 10 { assert Decimal(m)[0] == Decimal(n)[0]; }
    }
  }

  lemma DecimalParts(n: nat)
    requires n >= 10
    ensures Init(Decimal(n)) == Decimal(n / 10) && Last(Decimal(n)) == 48 + n % 10
  {
  }

  lemma DecimalLength(n: nat)
    ensures n < 10 ==> Decimal(n) == [48 + n]
    ensures n >= 10 ==> |Decimal(n)| > 1
  {
  }

  /** The length ends at the first colon, so equal bytes have equal lengths in front. */
  lemma PrefixUpToColon(a: Bytes, b: Bytes, s: Bytes, t: Bytes)
    requires COLON !in a && COLON !in b && a + [COLON] + s == b + [COLON] + t
    ensures a == b && s == t
  {
    var whole := a + [COLON] + s;
    assert whole[|a|] == COLON && whole[|b|] == COLON;
    NoneBefore(a, s, |b|);
    NoneBefore(b, t, |a|);
    assert a == whole[..|a|] && b == (b + [COLON] + t)[..|b|];
    assert s == whole[|a| + 1..] && t == (b + [COLON] + t)[|b| + 1..];
  }

  lemma NoneBefore(a: Bytes, s: Bytes, k: nat)
    requires COLON !in a && k < |a + [COLON] + s| && (a + [COLON] + s)[k] == COLON
    ensures k >= |a|
  {
  }

  lemma NoColon(n: nat)
    ensures COLON !in Decimal(n)
  {
  }

  lemma FrameSplits(a: Bytes, b: Bytes, s: Bytes, t: Bytes)
    requires Frame(a) + s == Frame(b) + t
    ensures a == b && s == t
  {
    hide Decimal;
    NoColon(|a|);
    NoColon(|b|);
    assert Frame(a) + s == Decimal(|a|) + [COLON] + (a + s);
    assert Frame(b) + t == Decimal(|b|) + [COLON] + (b + t);
    PrefixUpToColon(Decimal(|a|), Decimal(|b|), a + s, b + t);
    DecimalInjective(|a|, |b|);
    assert a == (a + s)[..|a|] && b == (b + t)[..|b|];
    assert s == (a + s)[|a|..] && t == (b + t)[|b|..];
  }

  lemma FrameIsNotEmpty(a: Bytes)
    ensures Frame(a) != []
  {
  }

  /** The framed bytes determine the list of fields. */
  lemma {:induction false} FramedInjective(a: seq<Bytes>, b: seq<Bytes>)
    requires Framed(a) == Framed(b)
    ensures a == b
  {
    hide Frame;
    if a == [] || b == [] {
      if a != [] { FrameIsNotEmpty(a[0]); }
      if b != [] { FrameIsNotEmpty(b[0]); }
    } else {
      FrameSplits(a[0], b[0], Framed(a[1..]), Framed(b[1..]));
      FramedInjective(a[1..], b[1..]);
      assert a == [a[0]] + a[1..] && b == [b[0]] + b[1..];
    }
  }

  /** Two commands on which the hash does not collide have the same hash exactly when they are the same command. */
  lemma HashInjective(hash: Hash, a: Command, b: Command)
    requires Tells(hash, a, b)
    ensures HashOf(hash, a) == HashOf(hash, b) <==> a == b
  {
    if HashOf(hash, a) == HashOf(hash, b) { SameFields(a, b); }
  }

  lemma SameFields(a: Command, b: Command)
    requires Framed(Fields(a)) == Framed(Fields(b))
    ensures a == b
  {
    FramedInjective(Fields(a), Fields(b));
    assert Fields(a)[0] == Fields(b)[0] && Fields(a)[1] == Fields(b)[1];
    assert Fields(a)[2..] == a.arguments && Fields(b)[2..] == b.arguments;
  }

  // ---- sorting --------------------------------------------------------------------------------

  predicate LexLe(a: string, b: string) {
    a == "" || (b != "" && (a[0] < b[0] || (a[0] == b[0] && LexLe(a[1..], b[1..]))))
  }

  lemma {:induction false} LexTotal(a: string, b: string)
    ensures LexLe(a, b) || LexLe(b, a)
  {
    if a != "" && b != "" { LexTotal(a[1..], b[1..]); }
  }

  lemma {:induction false} LexAntisymmetric(a: string, b: string)
    requires LexLe(a, b) && LexLe(b, a)
    ensures a == b
  {
    if a != "" && b != "" {
      LexAntisymmetric(a[1..], b[1..]);
      assert a == [a[0]] + a[1..] && b == [b[0]] + b[1..];
    }
  }

  lemma {:induction false} LexTransitive(a: string, b: string, c: string)
    requires LexLe(a, b) && LexLe(b, c)
    ensures LexLe(a, c)
  {
    if a != "" && a[0] == b[0] == c[0] { LexTransitive(a[1..], b[1..], c[1..]); }
  }

  lemma LexIsOrder()
    ensures IsOrder(LexLe)
  {
    forall x, y ensures LexLe(x, y) || LexLe(y, x) { LexTotal(x, y); }
    forall x, y | LexLe(x, y) && LexLe(y, x) ensures x == y { LexAntisymmetric(x, y); }
    forall x, y, z | LexLe(x, y) && LexLe(y, z) ensures LexLe(x, z) { LexTransitive(x, y, z); }
  }

  // ---- the digest of a database ---------------------------------------------------------------

  function Concat(s: seq<string>): string {
    if s == [] then "" else s[0] + Concat(s[1..])
  }

  /** Hashes of one width come apart again. */
  lemma {:induction false} ConcatInjective(a: seq<string>, b: seq<string>)
    requires (forall x :: x in a ==> |x| == 64) && (forall x :: x in b ==> |x| == 64)
    requires Concat(a) == Concat(b)
    ensures a == b
    decreases a
  {
    ConcatLength(a);
    ConcatLength(b);
    if a != [] {
      assert a[0] in a && b[0] in b;
      assert a[0] == Concat(a)[..64] && b[0] == Concat(b)[..64];
      assert Concat(a[1..]) == Concat(a)[64..] && Concat(b[1..]) == Concat(b)[64..];
      ConcatInjective(a[1..], b[1..]);
      assert a == [a[0]] + a[1..] && b == [b[0]] + b[1..];
    }
  }

  lemma {:induction false} ConcatLength(a: seq<string>)
    requires forall x :: x in a ==> |x| == 64
    ensures |Concat(a)| == 64 * |a|
  {
    if a != [] {
      assert a[0] in a;
      ConcatLength(a[1..]);
    }
  }

  function Hashes(hash: Hash, cs: seq<Command>): (r: seq<string>)
    ensures |r| == |cs|
  {
    Map(c => HashOf(hash, c), cs)
  }

  /** The text whose hash is the digest. */
  function DigestText(hash: Hash, cs: seq<Command>): string {
    Concat(Sort(LexLe, Hashes(hash, cs)))
  }

  lemma SortedWide(hash: Hash, cs: seq<Command>)
    requires Wide(hash)
    ensures forall h :: h in Sort(LexLe, Hashes(hash, cs)) ==> |h| == 64
  {
    hide Sort;
    SortPermutes(LexLe, Hashes(hash, cs));
    forall h | h in Sort(LexLe, Hashes(hash, cs)) ensures |h| == 64 {
      assert h in multiset(Sort(LexLe, Hashes(hash, cs)));
      var k :| 0 <= k < |cs| && Hashes(hash, cs)[k] == h;
    }
  }

  /** For every hash of this width, the digest text determines the entry hashes, each as often, and nothing else. */
  lemma DigestMeansHashes(hash: Hash, a: seq<Command>, b: seq<Command>)
    requires Wide(hash)
    ensures DigestText(hash, a) == DigestText(hash, b) <==> multiset(Hashes(hash, a)) == multiset(Hashes(hash, b))
  {
    hide Wide, Hashes, Sort, Concat, LexLe;
    var ha, hb := Hashes(hash, a), Hashes(hash, b);
    LexIsOrder();
    SortForgetsOrder(LexLe, ha, hb);
    if DigestText(hash, a) == DigestText(hash, b) {
      SortedWide(hash, a);
      SortedWide(hash, b);
      ConcatInjective(Sort(LexLe, ha), Sort(LexLe, hb));
    }
  }

  /** A command is hashed as often as it occurs, when no other command of the list has its hash. */
  lemma {:induction false} HashCounts(hash: Hash, cs: seq<Command>, c: Command)
    requires forall d :: d in cs ==> Tells(hash, d, c)
    ensures multiset(Hashes(hash, cs))[HashOf(hash, c)] == multiset(cs)[c]
  {
    hide HashOf, Tells;
    if cs != [] {
      assert forall d :: d in Init(cs) ==> d in cs;
      HashCounts(hash, Init(cs), c);
      MapSnoc(d => HashOf(hash, d), cs);
      MultisetSnoc(cs);
      assert Last(cs) in cs;
      HashInjective(hash, Last(cs), c);
    }
  }

  lemma SameCommandsSameHashes(hash: Hash, a: seq<Command>, b: seq<Command>)
    requires multiset(a) == multiset(b)
    ensures multiset(Hashes(hash, a)) == multiset(Hashes(hash, b))
  {
    hide HashOf;
    var same := (c: Command) => c;
    assert Map(same, a) == a && Map(same, b) == b;
    SameMapped(same, c => HashOf(hash, c), a, b);
  }

  /** The digest means the commands: two databases on whose commands the hash does not collide have the same digest text
      exactly when they hold the same commands, each as often, in any order. */
  lemma DigestMeansCommands(hash: Hash, a: seq<Command>, b: seq<Command>)
    requires Wide(hash) && NoCollision(hash, a + b)
    ensures DigestText(hash, a) == DigestText(hash, b) <==> multiset(a) == multiset(b)
  {
    hide Wide, DigestText, Hashes, Tells;
    DigestMeansHashes(hash, a, b);
    if multiset(a) == multiset(b) { SameCommandsSameHashes(hash, a, b); }
    if multiset(Hashes(hash, a)) == multiset(Hashes(hash, b)) {
      forall c ensures multiset(a)[c] == multiset(b)[c] {
        if c in a + b {
          HashCounts(hash, a, c);
          HashCounts(hash, b, c);
        } else {
          assert c !in a && c !in b;
        }
      }
    }
  }

  /** The premise can be met for any list of two commands: some hash of this width tells them apart. */
  lemma SomeHashTells(c: Command, d: Command) returns (hash: Hash)
    ensures Wide(hash) && NoCollision(hash, [c, d])
    ensures c != d ==> DigestText(hash, [c]) != DigestText(hash, [d])
  {
    var first, other := seq(64, _ => '0'), seq(64, _ => '1');
    var framed := Framed(Fields(c));
    hash := b => if b == framed then first else other;
    assert first[0] != other[0];
    if c != d {
      assert multiset([c])[c] == 1 && multiset([d])[c] == 0;
      assert [c] + [d] == [c, d];
      DigestMeansCommands(hash, [c], [d]);
    }
  }

  // ---- comparing with the previous run --------------------------------------------------------

  /** Every command of the database, or the first reason why one has none. */
  method Commands(entries: seq<Entry>) returns (r: Result<seq<Command>>)
    ensures r.Ok? <==> forall e :: e in entries ==> CommandOf(e).Ok?
    ensures r.Ok? ==> |r.value| == |entries| && forall k :: 0 <= k < |entries| ==> CommandOf(entries[k]) == Ok(r.value[k])
  {
    hide CommandOf;
    var commands := [];
    for k := 0 to |entries|
      invariant |commands| == k && forall i :: 0 <= i < k ==> CommandOf(entries[i]) == Ok(commands[i])
    {
      var c :- CommandOf(entries[k]);
      commands := commands + [c];
    }
    return Ok(commands);
  }

  /** The digest `complete` stores: the hash of the sorted hashes, an ASCII text. */
  function Digest(hash: Hash, textHash: string -> string, cs: seq<Command>): string {
    textHash(DigestText(hash, cs))
  }

  /** `complete` reports a change exactly when the stored digest is not one of a database with the same commands. */
  method Complete(hash: Hash, textHash: string -> string, entries: seq<Entry>, previous: Option<string>)
    returns (r: Result<(string, bool)>)
    ensures r.Ok? <==> forall e :: e in entries ==> CommandOf(e).Ok?
    ensures r.Ok? ==> exists cs ::
              && |cs| == |entries| && (forall k :: 0 <= k < |entries| ==> CommandOf(entries[k]) == Ok(cs[k]))
              && r.value == (Digest(hash, textHash, cs), previous != Some(Digest(hash, textHash, cs)))
  {
    hide CommandOf, Digest;
    var cs :- Commands(entries);
    var digest := Digest(hash, textHash, cs);
    return Ok((digest, previous != Some(digest)));
  }

  /** A run after another one reports no change exactly when the commands are the same multiset, unless the hash collides on
      commands of the two runs or on their two digest texts. */
  lemma UnchangedMeansSame(hash: Hash, textHash: string -> string, before: seq<Command>, after: seq<Command>)
    requires Wide(hash) && NoCollision(hash, before + after)
    requires var (x, y) := (DigestText(hash, before), DigestText(hash, after)); textHash(x) == textHash(y) ==> x == y
    ensures Digest(hash, textHash, before) == Digest(hash, textHash, after) <==> multiset(before) == multiset(after)
  {
    hide DigestText, Wide, NoCollision;
    DigestMeansCommands(hash, before, after);
  }

  // ---- the order, the framed bytes and the fields themselves -------------------------------------------------

  /** A hash comes before another when it is shorter and a part of it, or smaller at the first difference. */
  lemma {:induction false} LexMeans(a: string, b: string)
    ensures LexLe(a, b) <==> a <= b || exists k :: 0 <= k < |a| && k < |b| && a[..k] == b[..k] && a[k] < b[k]
  {
    if a != "" && b != "" {
      LexMeans(a[1..], b[1..]);
      if a[0] == b[0] {
        assert a <= b <==> a[1..] <= b[1..] by { PrefixTail(a, b); }
        if k :| 0 <= k < |a[1..]| && k < |b[1..]| && a[1..][..k] == b[1..][..k] && a[1..][k] < b[1..][k] {
          assert a[..k + 1] == [a[0]] + a[1..][..k] && b[..k + 1] == [b[0]] + b[1..][..k];
          assert a[k + 1] < b[k + 1];
        }
        if k :| 0 <= k < |a| && k < |b| && a[..k] == b[..k] && a[k] < b[k] {
          assert k > 0;
          assert a[1..][..k - 1] == a[..k][1..] && b[1..][..k - 1] == b[..k][1..];
          assert a[1..][k - 1] < b[1..][k - 1];
        }
      } else {
        if a[0] < b[0] { assert a[..0] == b[..0]; }
        forall k | 0 < k < |a| && k < |b| ensures a[..k] != b[..k] { assert a[..k][0] != b[..k][0]; }
      }
    }
  }

  lemma PrefixTail(a: string, b: string)
    requires a != "" && b != "" && a[0] == b[0]
    ensures a <= b <==> a[1..] <= b[1..]
  {
    if a <= b { assert forall i :: 0 <= i < |a| ==> a[i] == b[i]; }
    if a[1..] <= b[1..] {
      forall i | 0 <= i < |a| ensures a[i] == b[i] {
        if i > 0 { assert a[1..][i - 1] == b[1..][i - 1]; }
      }
    }
  }

  /** A field of fewer than a hundred bytes has one or two digits and a colon before it. */
  lemma FrameBytes(field: Bytes)
    ensures |field| < 10 ==> Frame(field) == [0x30 + |field|, 0x3a] + field
    ensures 10 <= |field| < 100 ==> Frame(field) == [0x30 + |field| / 10, 0x30 + |field| % 10, 0x3a] + field
  {
    if |field| < 10 {
      assert Decimal(|field|) == [0x30 + |field|];
    } else if |field| < 100 {
      assert Decimal(|field| / 10) == [0x30 + |field| / 10];
      assert Decimal(|field|) == [0x30 + |field| / 10] + [0x30 + |field| % 10];
    }
  }

  /** Every further digit stands behind those of a tenth. */
  lemma DecimalBytes(n: nat)
    requires n >= 10
    ensures Decimal(n) == Decimal(n / 10) + [0x30 + n % 10]
  {
  }

  /** What is hashed is the directory, the source and then each argument, all framed. */
  lemma FramedCommand(c: Command)
    ensures Framed(Fields(c)) == Frame(c.directory) + (Frame(c.file) + Framed(c.arguments))
    ensures c.arguments != [] ==> Framed(c.arguments) == Frame(c.arguments[0]) + Framed(c.arguments[1..])
  {
    hide Frame;
    var fields := Fields(c);
    assert fields[1..] == [c.file] + c.arguments && fields[1..][1..] == c.arguments;
  }

  /** A string without a NUL. */
  ghost predicate IsClean(f: Field) {
    f.Text? && forall k :: 0 <= k < |f.bytes| ==> f.bytes[k] != 0
  }

  lemma CleanMeans(f: Field)
    ensures IsText(f) <==> IsClean(f)
  {
  }

  /** An entry is a command exactly when it has arguments, all its fields are strings without a NUL, and directory, source and
      compiler are not empty; the command holds those strings. */
  lemma CommandMeans(e: Entry)
    ensures CommandOf(e).Ok? <==>
              && e.arguments.Some? && |e.arguments.value| > 0 && IsClean(e.directory) && IsClean(e.file)
              && (forall k :: 0 <= k < |e.arguments.value| ==> IsClean(e.arguments.value[k]))
              && |e.directory.bytes| > 0 && |e.file.bytes| > 0 && |e.arguments.value[0].bytes| > 0
    ensures CommandOf(e).Ok? ==>
              var c := CommandOf(e).value;
              && e.directory == Text(c.directory) && e.file == Text(c.file) && |c.arguments| == |e.arguments.value|
              && forall k :: 0 <= k < |c.arguments| ==> e.arguments.value[k] == Text(c.arguments[k])
    ensures CommandOf(e).Err? ==>
              CommandOf(e).reason
              == if e.arguments.None? || |e.arguments.value| == 0 then "compile entry must have nonempty arguments"
                 else if !IsClean(e.directory) || !IsClean(e.file)
                         || exists k :: 0 <= k < |e.arguments.value| && !IsClean(e.arguments.value[k]) then
                   "compile entry fields must be strings without NUL"
                 else "compile entry must identify cwd, source and compiler"
  {
    hide IsText, IsClean;
    if e.arguments.Some? && e.arguments.value != [] {
      var fields := [e.directory, e.file] + e.arguments.value;
      CleanMeans(e.directory);
      CleanMeans(e.file);
      forall k | 0 <= k < |e.arguments.value| ensures IsText(e.arguments.value[k]) <==> IsClean(e.arguments.value[k]) {
        CleanMeans(e.arguments.value[k]);
      }
      FieldsMean(e.directory, e.file, e.arguments.value);
    }
  }

  lemma FieldsMean(directory: Field, file: Field, arguments: seq<Field>)
    ensures (exists f :: f in [directory, file] + arguments && !IsText(f)) <==>
              !IsText(directory) || !IsText(file) || exists k :: 0 <= k < |arguments| && !IsText(arguments[k])
    ensures IsText(directory) ==> directory.Text?
    ensures IsText(file) ==> file.Text?
    ensures forall k :: 0 <= k < |arguments| && IsText(arguments[k]) ==> arguments[k].Text?
  {
    var fields := [directory, file] + arguments;
    assert fields[0] == directory && fields[1] == file && fields[0] in fields && fields[1] in fields;
    forall k | 0 <= k < |arguments| ensures arguments[k] in fields { assert fields[k + 2] == arguments[k]; }
  }
}
