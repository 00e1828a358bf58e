/** Image references and their repositories: splitImageRepo in
    internal/docker/auto_updater.go, and the digest pin of RewriteImageDigest. */
module ImageRefs {
  ghost predicate Without(s: string, c: char, from: int, to: int)
    requires 0 <= from <= to <= |s|
  {
    forall i :: from <= i < to ==> s[i] != c
  }

  function IndexFrom(s: string, c: char, from: nat): (r: int)
    requires from <= |s|
    ensures r == -1 || from <= r < |s|
    ensures r == -1 ==> Without(s, c, from, |s|)
    ensures r >= 0 ==> s[r] == c && Without(s, c, from, r)
    decreases |s| - from
  {
    if from == |s| then -1
    else if s[from] == c then from
    else IndexFrom(s, c, from + 1)
  }

  function LastIndexBelow(s: string, c: char, to: nat): (r: int)
    requires to <= |s|
    ensures -1 <= r < to
    ensures Without(s, c, r + 1, to)
    ensures r >= 0 ==> s[r] == c
  {
    if to == 0 then -1
    else if s[to - 1] == c then to - 1
    else LastIndexBelow(s, c, to - 1)
  }

  function IndexByte(s: string, c: char): int { IndexFrom(s, c, 0) }

  function LastIndexByte(s: string, c: char): (r: int)
    ensures -1 <= r < |s|
  {
    LastIndexBelow(s, c, |s|)
  }

  function BeforeDigest(image: string): string {
    var at := IndexByte(image, '@');
    if at >= 0 then image[..at] else image
  }

  function SplitImageRepo(image: string): string {
    CutTag(BeforeDigest(image))
  }

  /** splitImageRepo after the digest is gone. */
  function CutTag(image: string): string {
    var slash := LastIndexByte(image, '/');
    if slash >= 0 then
      var colon := LastIndexByte(image[slash..], ':');
      if colon >= 0 then image[..slash + colon] else image
    else
      var colon := LastIndexByte(image, ':');
      if colon >= 0 then image[..colon] else image
  }

  /** Where the last segment, after the last slash, begins. */
  function SegmentStart(s: string): (r: nat)
    ensures r <= |s|
  {
    LastIndexByte(s, '/') + 1
  }

  ghost predicate Has(s: string, c: char) { !Without(s, c, 0, |s|) }

  /** A repository name proper: no digest and no tag. */
  ghost predicate PlainRepo(s: string) {
    !Has(s, '@') && Without(s, ':', SegmentStart(s), |s|)
  }

  /** No repository is left of an image exactly when nothing stands before its digest, or only a
      single colon at the very start, with no slash after it. */
  lemma NoRepoIff(image: string)
    ensures SplitImageRepo(image) == "" <==>
            || image == "" || image[0] == '@'
            || (image[0] == ':' && forall i :: 1 <= i < |BeforeDigest(image)| ==> image[i] != ':' && image[i] != '/')
  {
    var b := BeforeDigest(image);
    assert |b| <= |image| && forall i :: 0 <= i < |b| ==> b[i] == image[i];
    if b != "" {
      var slash, colon := LastIndexByte(b, '/'), LastIndexByte(b, ':');
      assert Without(b, '/', slash + 1, |b|) && Without(b, ':', colon + 1, |b|);
      if slash >= 0 {
        assert b[slash..][0] == '/';
      }
    }
  }

  /** The tag is cut at the last colon, provided it follows the last slash. */
  lemma CutAtLastColon(b: string)
    ensures var colon := LastIndexByte(b, ':');
            CutTag(b) == if colon >= SegmentStart(b) then b[..colon] else b
  {
    var slash, colon := LastIndexByte(b, '/'), LastIndexByte(b, ':');
    if slash >= 0 {
      var tail := b[slash..];
      var rel := LastIndexByte(tail, ':');
      assert forall i :: 0 <= i < |tail| ==> tail[i] == b[slash + i];
      assert rel >= 0 ==> b[slash + rel] == ':';
      assert Without(b, ':', slash + rel + 1, |b|) by {
        forall i | slash + rel + 1 <= i < |b| ensures b[i] != ':' {
          assert tail[i - slash] == b[i];
        }
      }
    }
  }

  lemma LastSlashKept(b: string, n: nat)
    requires SegmentStart(b) <= n <= |b|
    ensures SegmentStart(b[..n]) == SegmentStart(b)
  {
    var slash, s := LastIndexByte(b, '/'), b[..n];
    assert Without(s, '/', slash + 1, |s|);
    assert slash >= 0 ==> s[slash] == '/';
  }

  // ---- Counting colons in the last segment ------------------------------------------

  function CountFrom(s: string, c: char, from: nat): nat
    requires from <= |s|
    decreases |s| - from
  {
    if from == |s| then 0 else (if s[from] == c then 1 else 0) + CountFrom(s, c, from + 1)
  }

  lemma {:induction false} CountZero(s: string, c: char, from: nat)
    requires from <= |s|
    ensures CountFrom(s, c, from) == 0 <==> Without(s, c, from, |s|)
    decreases |s| - from
  {
    if from < |s| { CountZero(s, c, from + 1); }
  }

  /** Dropping the last occurrence and what follows lowers the count by one. */
  lemma {:induction false} CountBeforeLast(s: string, c: char, from: nat, last: nat)
    requires from <= last < |s| && s[last] == c && Without(s, c, last + 1, |s|)
    ensures CountFrom(s, c, from) == CountFrom(s[..last], c, from) + 1
    decreases |s| - from
  {
    if from < last {
      CountBeforeLast(s, c, from + 1, last);
    } else {
      CountZero(s, c, last + 1);
    }
  }

  /** The colons of the last segment once any digest is cut off. */
  function SegmentColons(image: string): nat {
    var b := BeforeDigest(image);
    CountFrom(b, ':', SegmentStart(b))
  }

  lemma NoDigestLeft(image: string)
    ensures !Has(BeforeDigest(image), '@')
    ensures !Has(image, '@') ==> BeforeDigest(image) == image
  {
  }

  /** Splitting leaves a plain repository exactly when the last segment holds at most
      one colon, and shortens an image that is not plain. */
  lemma SplitShape(image: string)
    ensures PlainRepo(SplitImageRepo(image)) <==> SegmentColons(image) <= 1
    ensures !Has(SplitImageRepo(image), '@')
    ensures SegmentColons(image) == 0 ==> SplitImageRepo(image) == BeforeDigest(image)
    ensures SegmentColons(image) > 0 ==> |SplitImageRepo(image)| < |BeforeDigest(image)|
  {
    var b := BeforeDigest(image);
    NoDigestLeft(image);
    CutAtLastColon(b);
    var start, colon := SegmentStart(b), LastIndexByte(b, ':');
    CountZero(b, ':', start);
    if colon >= start {
      LastSlashKept(b, colon);
      CountBeforeLast(b, ':', start, colon);
      CountZero(b[..colon], ':', start);
      assert !Has(b[..colon], '@');
    }
  }

  lemma AppendedDigest(repo: string, digest: string)
    requires !Has(repo, '@')
    ensures BeforeDigest(repo + ['@'] + digest) == repo
  {
    var s := repo + ['@'] + digest;
    assert Without(s, '@', 0, |repo|) && s[|repo|] == '@';
    assert IndexByte(s, '@') == |repo|;
    assert s[..|repo|] == repo;
  }

  /** A repository comes back whole from every kind of reference to it. */
  lemma RepoOfReference(repo: string, tag: string, digest: string)
    requires PlainRepo(repo)
    requires !Has(tag, '/') && !Has(tag, ':') && !Has(tag, '@')
    ensures SplitImageRepo(repo) == repo
    ensures SplitImageRepo(repo + ['@'] + digest) == repo
    ensures SplitImageRepo(repo + [':'] + tag) == repo
    ensures SplitImageRepo(repo + [':'] + tag + ['@'] + digest) == repo
  {
    NoDigestLeft(repo);
    CutAtLastColon(repo);
    AppendedDigest(repo, digest);
    TaggedRepo(repo, tag);
    AppendedDigest(repo + [':'] + tag, digest);
  }

  /** So a pin reads repository@digest whatever tag or digest the reference had. */
  lemma PinReplacesSuffix(repo: string, tag: string, digest: string, pin: string)
    requires PlainRepo(repo)
    requires !Has(tag, '/') && !Has(tag, ':') && !Has(tag, '@')
    ensures Pinned(repo, pin) == repo + "@" + pin
    ensures Pinned(repo + "@" + digest, pin) == repo + "@" + pin
    ensures Pinned(repo + ":" + tag, pin) == repo + "@" + pin
    ensures Pinned(repo + ":" + tag + "@" + digest, pin) == repo + "@" + pin
  {
    RepoOfReference(repo, tag, digest);
  }

  lemma TaggedRepo(repo: string, tag: string)
    requires PlainRepo(repo)
    requires !Has(tag, '/') && !Has(tag, ':') && !Has(tag, '@')
    ensures var s := repo + [':'] + tag; !Has(s, '@') && CutTag(s) == repo && SplitImageRepo(s) == repo
  {
    var s := repo + [':'] + tag;
    var n, slash := |repo|, LastIndexByte(repo, '/');
    assert s[..n] == repo && s[n] == ':';
    forall i | n < i < |s| ensures s[i] == tag[i - n - 1] {}
    assert Without(s, '@', 0, |s|);
    assert Without(s, ':', n + 1, |s|);
    assert Without(s, '/', slash + 1, |s|) by {
      forall i | slash + 1 <= i < |s| ensures s[i] != '/' {
        if i < n { assert s[i] == repo[i]; }
      }
    }
    assert slash >= 0 ==> s[slash] == '/';
    assert LastIndexByte(s, ':') == n && LastIndexByte(s, '/') == slash;
    CutAtLastColon(s);
    NoDigestLeft(s);
  }

  // ---- Pinning --------------------------------------------------------------------

  function Pinned(image: string, digest: string): string {
    SplitImageRepo(image) + ['@'] + digest
  }

  /** Pinning an already pinned reference changes nothing exactly when the last
      segment of the original, digest cut off, holds at most one colon. */
  lemma PinTwiceIff(image: string, digest: string)
    ensures Pinned(Pinned(image, digest), digest) == Pinned(image, digest) <==> SegmentColons(image) <= 1
  {
    var repo := SplitImageRepo(image);
    SplitShape(image);
    AppendedDigest(repo, digest);
    NoDigestLeft(repo);
    SplitShape(repo);
    CountZero(repo, ':', SegmentStart(repo));
    assert SplitImageRepo(Pinned(image, digest)) == SplitImageRepo(repo);
    if SegmentColons(image) > 1 {
      assert |SplitImageRepo(repo)| < |repo|;
    }
  }

  /** A placeholder with a tagged default is an image on which pins do not settle. */
  lemma PlaceholderPinsDiffer(digest: string)
    ensures var image := ['$', '{', 'A', ':', '-', 'b', ':', '1', '}'];
            Pinned(Pinned(image, digest), digest) != Pinned(image, digest)
  {
    var image := ['$', '{', 'A', ':', '-', 'b', ':', '1', '}'];
    NoDigestLeft(image);
    assert Without(image, '/', 0, |image|);
    assert SegmentStart(image) == 0;
    assert Without(image, ':', 7, |image|) && image[6] == ':' && image[3] == ':';
    CountBeforeLast(image, ':', 0, 6);
    CountZero(image[..6], ':', 0);
    PinTwiceIff(image, digest);
  }
}
