/** A log kept in several named files: what reading them in order gives, and what writes change. */
module FileLog {

  function Content<K, V>(files: map<K, seq<V>>, name: K): seq<V> {
    if name in files then files[name] else []
  }

  function Concat<K, V>(files: map<K, seq<V>>, names: seq<K>): seq<V> {
    if names == [] then [] else Content(files, names[0]) + Concat(files, names[1..])
  }

  predicate Present<K, V>(files: map<K, seq<V>>, names: seq<K>) {
    forall i :: 0 <= i < |names| ==> names[i] in files
  }

  predicate Distinct<K(==)>(names: seq<K>) {
    forall i, j :: 0 <= i < j < |names| ==> names[i] != names[j]
  }

  /** The files after a write of `w` to the end of one of them. */
  function Grown<K, V>(files: map<K, seq<V>>, name: K, w: seq<V>): map<K, seq<V>> {
    files[name := Content(files, name) + w]
  }

  /** Replacing one file leaves the others alone. */
  lemma OneReplaced<K(!new), V>(files: map<K, seq<V>>, name: K, w: seq<V>)
    ensures forall k :: k != name ==>
              (k in files[name := w] <==> k in files) && Content(files[name := w], k) == Content(files, k)
    ensures files[name := w][name] == w
  {
  }

  lemma {:induction false} ConcatAppend<K, V>(files: map<K, seq<V>>, a: seq<K>, b: seq<K>)
    ensures Concat(files, a + b) == Concat(files, a) + Concat(files, b)
    decreases |a|
  {
    hide Content;
    if a == [] {
      assert a + b == b;
    } else {
      assert (a + b)[1..] == a[1..] + b;
      ConcatAppend(files, a[1..], b);
    }
  }

  lemma {:induction false} ConcatSame<K, V>(files: map<K, seq<V>>, files': map<K, seq<V>>, names: seq<K>)
    requires forall i :: 0 <= i < |names| ==> Content(files, names[i]) == Content(files', names[i])
    ensures Concat(files, names) == Concat(files', names)
    decreases |names|
  {
    hide Content;
    if names != [] { ConcatSame(files, files', names[1..]); }
  }

  lemma {:induction false} ConcatEmpty<K, V>(files: map<K, seq<V>>, names: seq<K>)
    requires forall i :: 0 <= i < |names| ==> Content(files, names[i]) == []
    ensures Concat(files, names) == []
    decreases |names|
  {
    hide Content;
    if names != [] { ConcatEmpty(files, names[1..]); }
  }

  lemma ConcatAt<K, V>(files: map<K, seq<V>>, names: seq<K>, k: nat)
    requires k < |names|
    ensures Concat(files, names) == Concat(files, names[..k]) + (Content(files, names[k]) + Concat(files, names[k + 1..]))
  {
    hide Content;
    assert names == names[..k] + names[k..];
    ConcatAppend(files, names[..k], names[k..]);
    assert names[k..][1..] == names[k + 1..];
  }

  lemma OthersSame<K, V>(files: map<K, seq<V>>, names: seq<K>, k: nat, w: seq<V>)
    requires k < |names| && Distinct(names)
    ensures forall j :: 0 <= j < |names| && j != k ==> Content(Grown(files, names[k], w), names[j]) == Content(files, names[j])
    ensures Content(Grown(files, names[k], w), names[k]) == Content(files, names[k]) + w
  {
  }

  /** Appending to the last file that holds anything appends to the whole log. */
  lemma ConcatGrows<K, V>(files: map<K, seq<V>>, names: seq<K>, k: nat, w: seq<V>)
    requires k < |names| && Distinct(names)
    requires forall j :: k < j < |names| ==> Content(files, names[j]) == []
    ensures Concat(Grown(files, names[k], w), names) == Concat(files, names) + w
    ensures forall j :: k < j < |names| ==> Content(Grown(files, names[k], w), names[j]) == []
  {
    OthersSame(files, names, k, w);
    hide Content, Concat, Grown, Distinct;
    var files' := Grown(files, names[k], w);
    ConcatAt(files, names, k);
    ConcatAt(files', names, k);
    SameBefore(files, files', names, k);
    NothingAfter(files, names, k);
    NothingAfter(files', names, k);
    Regroup(Concat(files, names[..k]), Content(files, names[k]), w);
  }

  lemma SameBefore<K, V>(files: map<K, seq<V>>, files': map<K, seq<V>>, names: seq<K>, k: nat)
    requires k < |names| && forall j :: 0 <= j < |names| && j != k ==> Content(files', names[j]) == Content(files, names[j])
    ensures Concat(files, names[..k]) == Concat(files', names[..k])
  {
    hide Content, Concat;
    ConcatSame(files, files', names[..k]);
  }

  lemma NothingAfter<K, V>(files: map<K, seq<V>>, names: seq<K>, k: nat)
    requires k < |names| && forall j :: k < j < |names| ==> Content(files, names[j]) == []
    ensures Concat(files, names[k + 1..]) == []
  {
    hide Content, Concat;
    ConcatEmpty(files, names[k + 1..]);
  }

  lemma Regroup<V>(head: seq<V>, here: seq<V>, w: seq<V>)
    ensures head + ((here + w) + []) == head + (here + []) + w
  {
  }
}
