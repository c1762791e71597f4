/** Digest-pinned image references, as every tool of the evidence pipeline recognises them. */
module Images {
  import opened Json
  import opened Text

  const DIGEST_MARK := "@sha256:"

  predicate IsHex(s: string) {
    forall c | c in s :: '0' <= c <= '9' || 'a' <= c <= 'f'
  }

  predicate IsAlphanumeric(c: char) {
    '0' <= c <= '9' || 'a' <= c <= 'z' || 'A' <= c <= 'Z'
  }

  /** `[A-Za-z0-9][A-Za-z0-9._/:\-]*` */
  predicate RepositoryShaped(s: string) {
    s != "" && IsAlphanumeric(s[0]) && forall c | c in s :: IsAlphanumeric(c) || c in "._/:-"
  }

  /** A repository, `@sha256:` and 64 hexadecimal digits: the last 72 characters are fixed in form. */
  predicate IsPinned(image: string) {
    && |image| > 72
    && image[|image| - 72..|image| - 64] == DIGEST_MARK
    && IsHex(image[|image| - 64..])
    && RepositoryShaped(image[..|image| - 72])
  }

  function Repository(image: string): string
    requires IsPinned(image)
  {
    image[..|image| - 72]
  }

  function DigestHex(image: string): string
    requires IsPinned(image)
  {
    image[|image| - 64..]
  }

  function Digest(image: string): string
    requires IsPinned(image)
  {
    "sha256:" + DigestHex(image)
  }

  /** The digits of a digest written with or without its algorithm. */
  function DeclaredHex(digest: string): Option<string> {
    if |digest| == 64 && IsHex(digest) then Some(digest)
    else if |digest| == 71 && digest[..7] == "sha256:" && IsHex(digest[7..]) then Some(digest[7..])
    else None
  }

  type Subject = (string, string)

  /** `value.get(key)` on a JSON object: null when the entry is missing. */
  function Field(value: Json, key: string): Json
    requires value.Obj?
  {
    if key in value.fields then value.fields[key] else Null
  }

  /** `value == 1`, which in Python also holds of True. */
  predicate EqualsOne(value: Json) {
    value == Int(1) || value == Bool(true)
  }

  /** The canonical identity of one subject, None when image and digest do not make one. */
  function SubjectKey(image: Json, digest: Json): Option<Subject> {
    if !image.Str? || !digest.Str? || !IsPinned(image.text) then None
    else if DeclaredHex(digest.text) != Some(DigestHex(image.text)) then None
    else Some((image.text, Digest(image.text)))
  }

  /** A pinned image with its own digest is always a subject, and is its own key. */
  lemma SubjectOfPinned(image: string)
    requires IsPinned(image)
    ensures SubjectKey(Str(image), Str(Digest(image))) == Some((image, Digest(image)))
  {
  }

  // ---- what the recogniser accepts, by its parts -------------------------------------------

  /** 64 lower-case hexadecimal digits. */
  predicate IsDigestText(hex: string) {
    |hex| == 64 && forall c | c in hex :: c in "0123456789abcdef"
  }

  /** A non-empty name of letters, digits and five punctuation characters that begins with a letter or digit. */
  predicate IsRepositoryText(repository: string) {
    && repository != "" && repository[0] !in "._/:-"
    && forall c | c in repository :: '0' <= c <= '9' || 'a' <= c <= 'z' || 'A' <= c <= 'Z' || c in "._/:-"
  }

  /** The image is this repository with this digest. */
  predicate IsImageOf(image: string, repository: string, hex: string) {
    image == repository + "@sha256:" + hex && IsRepositoryText(repository) && IsDigestText(hex)
  }

  lemma HexIff(s: string)
    ensures IsHex(s) <==> forall c | c in s :: c in "0123456789abcdef"
  {
    if forall c | c in s :: c in "0123456789abcdef" {
      forall c | c in s ensures '0' <= c <= '9' || 'a' <= c <= 'f' {
        HexDigits(c);
      }
    }
    if IsHex(s) {
      forall c | c in s ensures c in "0123456789abcdef" {
        HexDigits(c);
      }
    }
  }

  lemma HexDigits(c: char)
    ensures c in "0123456789abcdef" <==> '0' <= c <= '9' || 'a' <= c <= 'f'
  {
    if '0' <= c <= '9' {
      assert "0123456789abcdef"[c as int - '0' as int] == c;
    } else if 'a' <= c <= 'f' {
      assert "0123456789abcdef"[c as int - 'a' as int + 10] == c;
    }
  }

  lemma RepositoryIff(s: string)
    ensures RepositoryShaped(s) <==> IsRepositoryText(s)
  {
    if s != "" {
      assert s[0] in s;
      assert forall c :: IsAlphanumeric(c) ==> c !in "._/:-";
    }
  }

  /** An image is recognised exactly when it is a repository, the mark and a digest; and these are what is
      read from it. */
  lemma PinnedIff(image: string, repository: string, hex: string)
    ensures IsImageOf(image, repository, hex)
            <==> IsPinned(image) && Repository(image) == repository && DigestHex(image) == hex
    ensures IsImageOf(image, repository, hex) ==> Digest(image) == "sha256:" + hex
  {
    hide IsHex, RepositoryShaped, IsRepositoryText;
    HexIff(hex);
    RepositoryIff(repository);
    if IsImageOf(image, repository, hex) {
      RepositoryNotEmpty(repository);
      var n := |image|;
      assert image[..n - 72] == repository && image[n - 72..n - 64] == "@sha256:" && image[n - 64..] == hex;
    }
    if IsPinned(image) && Repository(image) == repository && DigestHex(image) == hex {
      assert image == image[..|image| - 72] + image[|image| - 72..|image| - 64] + image[|image| - 64..];
    }
  }

  lemma RepositoryNotEmpty(s: string)
    ensures IsRepositoryText(s) ==> s != ""
  {
  }

  /** A recognised image is one repository with one digest. */
  lemma PinnedHasParts(image: string)
    ensures IsPinned(image) <==> exists repository, hex :: IsImageOf(image, repository, hex)
  {
    hide IsPinned, IsImageOf, Repository, DigestHex, Digest;
    if IsPinned(image) {
      PinnedIff(image, Repository(image), DigestHex(image));
    }
    if repository, hex :| IsImageOf(image, repository, hex) {
      PinnedIff(image, repository, hex);
    }
  }

  /** A declared pair is a subject exactly when the image is recognised and the digest written beside it is
      its own, with or without its algorithm. */
  lemma SubjectIff(image: Json, digest: Json, subject: Subject)
    ensures SubjectKey(image, digest) == Some(subject)
            <==> exists repository, hex ::
                   && image == Str(subject.0) && IsImageOf(subject.0, repository, hex)
                   && (digest == Str(hex) || digest == Str("sha256:" + hex)) && subject.1 == "sha256:" + hex
  {
    hide IsPinned, IsImageOf, Repository, DigestHex, Digest;
    if image.Str? && digest.Str? && IsPinned(image.text) {
      PinnedIff(image.text, Repository(image.text), DigestHex(image.text));
      DeclaredIff(digest.text, DigestHex(image.text));
      DigestIsText(image.text, Repository(image.text), DigestHex(image.text));
    }
    if repository, hex :|
      && image == Str(subject.0) && IsImageOf(subject.0, repository, hex)
      && (digest == Str(hex) || digest == Str("sha256:" + hex)) && subject.1 == "sha256:" + hex {
      PinnedIff(subject.0, repository, hex);
    }
  }

  lemma DigestIsText(image: string, repository: string, hex: string)
    ensures IsImageOf(image, repository, hex) ==> IsDigestText(hex)
  {
  }

  lemma DeclaredIff(digest: string, hex: string)
    ensures IsDigestText(hex) ==> (DeclaredHex(digest) == Some(hex) <==> digest == hex || digest == "sha256:" + hex)
  {
    HexIff(hex);
    hide IsHex;
    assert |digest| == 71 ==> digest == digest[..7] + digest[7..];
    assert digest == "sha256:" + hex && |hex| == 64 ==> digest[..7] == "sha256:" && digest[7..] == hex;
  }
}
