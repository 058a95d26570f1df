/** lunr.FieldRef: a field of a document written as one string, and the similar string that
    Index.query uses to remember which term and field it has dealt with. */
module FieldRefs {
  const JOINER := '/'

  datatype FieldRef = FieldRef(docRef: string, fieldName: string)
  datatype Parsed = Ref(ref: FieldRef) | Malformed

  function ToString(r: FieldRef): string {
    r.fieldName + [JOINER] + r.docRef
  }

  /** String.indexOf, with the length standing for -1 */
  function IndexOf(s: string, ch: char): (n: nat)
    ensures n <= |s| && ch !in s[..n] && (n < |s| ==> s[n] == ch)
  {
    if s == "" || s[0] == ch then 0 else
      var n := IndexOf(s[1..], ch);
      assert s[..n + 1] == [s[0]] + s[1..][..n];
      n + 1
  }

  lemma {:induction false} FirstIndex(s: string, ch: char, n: nat)
    requires n < |s| && s[n] == ch && ch !in s[..n]
    ensures IndexOf(s, ch) == n
  {
    if n > 0 {
      assert s[0] in s[..n] && s[1..][..n - 1] == s[..n][1..];
      FirstIndex(s[1..], ch, n - 1);
    }
  }

  function FromString(s: string): Parsed {
    var n := IndexOf(s, JOINER);
    if n == |s| then Malformed else Ref(FieldRef(s[n + 1..], s[..n]))
  }

  /** A reference is written with a slash between field and document.  Reading gives it back
      exactly when the field name has no slash, whatever the document is called. */
  lemma RoundTrip(r: FieldRef)
    ensures ToString(r) == r.fieldName + "/" + r.docRef
    ensures FromString(ToString(r)) == Ref(r) <==> '/' !in r.fieldName
  {
    if JOINER !in r.fieldName {
      var s, n := ToString(r), |r.fieldName|;
      assert s[n] == JOINER && s[..n] == r.fieldName && s[n + 1..] == r.docRef;
      FirstIndex(s, JOINER, n);
    }
  }

  /** Only strings without a joiner are malformed; reading and writing gives the others back. */
  lemma ReadThenWrite(s: string)
    ensures FromString(s).Malformed? <==> '/' !in s
    ensures FromString(s).Ref? ==> ToString(FromString(s).ref) == s && JOINER !in FromString(s).ref.fieldName
  {
    var n := IndexOf(s, JOINER);
    if n == |s| { assert s[..n] == s; }
  }

  /** The key of termFieldCache */
  function TermField(term: string, field: string): string {
    term + "/" + field
  }

  /** No two pairs share a cache key, even for terms with a "/". */
  lemma TermFieldInjective(t: string, f: string, u: string, g: string)
    requires JOINER !in f && JOINER !in g && TermField(t, f) == TermField(u, g)
    ensures t == u && f == g
  {
    var s := TermField(t, f);
    assert s[|t|] == JOINER && forall i :: |t| < i < |s| ==> s[i] == f[i - |t| - 1];
    assert s[|u|] == JOINER && forall i :: |u| < i < |s| ==> s[i] == g[i - |u| - 1];
    assert |t| == |u|;
    assert s[..|t|] == t && s[..|u|] == u && s[|t| + 1..] == f && s[|u| + 1..] == g;
  }
}
