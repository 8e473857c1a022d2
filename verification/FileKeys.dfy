/** The bytes FileID.Key hashes (pkg/blockcache/blockcache.go). */
module FileKeys {
  import opened Decimals

  const NUL: char := '\U{0}'

  datatype FileID = FileID(mount: string, path: string, size: int, mtime: int, writable: bool)

  /** A writable entry is a bucket for its path: its size and mtime do not count. */
  predicate SameFile(a: FileID, b: FileID) {
    && a.mount == b.mount && a.path == b.path && a.writable == b.writable
    && (!a.writable ==> a.size == b.size && a.mtime == b.mtime)
  }

  predicate Plain(id: FileID) {
    NUL !in id.mount && NUL !in id.path
  }

  function Field(s: string, rest: string): string {
    s + [NUL] + rest
  }

  /** What is fed to the hash. */
  function Preimage(id: FileID): string {
    var size := if id.writable then 0 else id.size;
    var mtime := if id.writable then 0 else id.mtime;
    Field(id.mount, Field(id.path, Field(Signed(size), Field(Signed(mtime), if id.writable then "\U{1}" else [NUL]))))
  }

  /** Where the first separator is, or the length. */
  ghost function Separator(s: string): nat {
    if s == "" || s[0] == NUL then 0 else 1 + Separator(s[1..])
  }

  lemma {:induction false} SeparatorEndsField(a: string, x: string)
    requires NUL !in a
    ensures Separator(Field(a, x)) == |a|
  {
    if a != "" {
      SeparatorEndsField(a[1..], x);
      assert Field(a, x)[0] == a[0] && Field(a, x)[1..] == Field(a[1..], x);
    }
  }

  /** A separator that is in no field tells the fields apart. */
  lemma FieldInjective(a: string, x: string, b: string, y: string)
    requires Field(a, x) == Field(b, y) && NUL !in a && NUL !in b
    ensures a == b && x == y
  {
    SeparatorEndsField(a, x);
    SeparatorEndsField(b, y);
    var s := Field(a, x);
    assert s[..|a|] == a && s[..|b|] == b && s[|a| + 1..] == x && s[|b| + 1..] == y;
  }

  lemma NumberIsPlain(n: int)
    ensures NUL !in Signed(n)
  {
  }

  /** Two identities hash the same bytes exactly when they are the same file. */
  lemma KeyExact(a: FileID, b: FileID)
    requires Plain(a) && Plain(b)
    ensures Preimage(a) == Preimage(b) <==> SameFile(a, b)
  {
    hide Field, Signed;
    if Preimage(a) == Preimage(b) {
      var aSize, aTime := if a.writable then 0 else a.size, if a.writable then 0 else a.mtime;
      var bSize, bTime := if b.writable then 0 else b.size, if b.writable then 0 else b.mtime;
      var aEnd, bEnd := if a.writable then "\U{1}" else [NUL], if b.writable then "\U{1}" else [NUL];
      NumberIsPlain(aSize);
      NumberIsPlain(bSize);
      NumberIsPlain(aTime);
      NumberIsPlain(bTime);
      var aNumbers, bNumbers := Field(Signed(aTime), aEnd), Field(Signed(bTime), bEnd);
      FieldInjective(a.mount, Field(a.path, Field(Signed(aSize), aNumbers)),
                     b.mount, Field(b.path, Field(Signed(bSize), bNumbers)));
      FieldInjective(a.path, Field(Signed(aSize), aNumbers), b.path, Field(Signed(bSize), bNumbers));
      FieldInjective(Signed(aSize), aNumbers, Signed(bSize), bNumbers);
      FieldInjective(Signed(aTime), aEnd, Signed(bTime), bEnd);
      SignedInjective(aSize, bSize);
      SignedInjective(aTime, bTime);
      assert aEnd[0] == bEnd[0];
    }
  }

  // ---- and only for fields without the separator --------------------------------------------

  ghost function Separators(s: string): nat {
    if s == "" then 0 else (if s[0] == NUL then 1 else 0) + Separators(s[1..])
  }

  lemma {:induction false} SeparatorsAdd(a: string, b: string)
    ensures Separators(a + b) == Separators(a) + Separators(b)
  {
    if a == "" {
      assert a + b == b;
    } else {
      SeparatorsAdd(a[1..], b);
      assert (a + b)[1..] == a[1..] + b;
    }
  }

  lemma {:induction false} NoSeparators(s: string)
    ensures Separators(s) == 0 <==> NUL !in s
  {
    if s != "" {
      NoSeparators(s[1..]);
      assert s == [s[0]] + s[1..];
    }
  }

  lemma FieldSeparators(s: string, rest: string)
    ensures Separators(Field(s, rest)) == Separators(s) + 1 + Separators(rest)
  {
    SeparatorsAdd(s + [NUL], rest);
    SeparatorsAdd(s, [NUL]);
    assert [NUL][1..] == "";
  }

  /** Separators of a preimage: those of mount and path, and the format's own. */
  lemma PreimageSeparators(id: FileID)
    ensures Separators(Preimage(id)) ==
              Separators(id.mount) + Separators(id.path) + (if id.writable then 4 else 5)
  {
    hide Field, Signed;
    var size, mtime := if id.writable then 0 else id.size, if id.writable then 0 else id.mtime;
    var end := if id.writable then "\U{1}" else [NUL];
    assert Separators(end) == (if id.writable then 0 else 1) by { assert end[1..] == ""; }
    NumberIsPlain(size);
    NumberIsPlain(mtime);
    NoSeparators(Signed(size));
    NoSeparators(Signed(mtime));
    FieldSeparators(Signed(mtime), end);
    FieldSeparators(Signed(size), Field(Signed(mtime), end));
    FieldSeparators(id.path, Field(Signed(size), Field(Signed(mtime), end)));
    FieldSeparators(id.mount, Field(id.path, Field(Signed(size), Field(Signed(mtime), end))));
  }

  /** The last byte is the flag. */
  lemma LastIsFlag(id: FileID)
    ensures Preimage(id) != "" && (Preimage(id)[|Preimage(id)| - 1] == NUL <==> !id.writable)
  {
    hide Signed;
  }

  /** Nothing else hashes the bytes of a file whose fields have no separator. */
  lemma PlainIsUnique(a: FileID, b: FileID)
    requires Plain(a) && Preimage(a) == Preimage(b)
    ensures SameFile(a, b)
  {
    hide Preimage, Separators;
    LastIsFlag(a);
    LastIsFlag(b);
    PreimageSeparators(a);
    PreimageSeparators(b);
    NoSeparators(a.mount);
    NoSeparators(a.path);
    NoSeparators(b.mount);
    NoSeparators(b.path);
    KeyExact(a, b);
  }

  /** A separator inside the mount or the path can be taken for the one between them. */
  lemma SeparatorInFieldCollides(a: FileID) returns (b: FileID)
    requires !Plain(a)
    ensures Preimage(a) == Preimage(b) && !SameFile(a, b)
  {
    hide Signed;
    if NUL in a.mount {
      var k :| 0 <= k < |a.mount| && a.mount[k] == NUL;
      b := a.(mount := a.mount[..k], path := Field(a.mount[k + 1..], a.path));
      Regroup(a.mount[..k], a.mount[k + 1..], a.path);
      assert a.mount == Field(a.mount[..k], a.mount[k + 1..]);
    } else {
      var k :| 0 <= k < |a.path| && a.path[k] == NUL;
      b := a.(mount := Field(a.mount, a.path[..k]), path := a.path[k + 1..]);
      Regroup(a.mount, a.path[..k], a.path[k + 1..]);
      assert a.path == Field(a.path[..k], a.path[k + 1..]);
    }
  }

  lemma Regroup(x: string, y: string, z: string)
    ensures forall tail: string :: Field(Field(x, y), Field(z, tail)) == Field(x, Field(Field(y, z), tail))
  {
    forall tail: string ensures Field(Field(x, y), Field(z, tail)) == Field(x, Field(Field(y, z), tail)) {
      assert Field(Field(x, y), Field(z, tail)) == x + [NUL] + y + [NUL] + z + [NUL] + tail;
    }
  }

  /** A file's bytes are hashed for no other file if and only if its mount and path hold no separator. */
  lemma UniqueExact(a: FileID)
    ensures Plain(a) <==> forall b :: Preimage(a) == Preimage(b) ==> SameFile(a, b)
  {
    hide Preimage, Plain, SameFile;
    if Plain(a) {
      forall b | Preimage(a) == Preimage(b) ensures SameFile(a, b) {
        PlainIsUnique(a, b);
      }
    } else {
      var b := SeparatorInFieldCollides(a);
    }
  }
}
