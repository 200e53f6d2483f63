/**
 * The naming rules of a file upload: the size limit, the storage key built
 * from the upload time and the sanitised name, and the type derived from the
 * name's extension.
 */
module UploadNaming {
  import opened Strings
  import opened Paths

  /** `MAX_FILE_SIZE`: 50 MiB in bytes. */
  const MaxFileSize: int := 50 * 1024 * 1024

  /** Files strictly larger than the limit are refused before anything is stored. */
  predicate TooLarge(size: int)
  {
    size > MaxFileSize
  }

  /** The characters `[a-zA-Z0-9.-]` that sanitising keeps. */
  predicate IsSafe(c: char)
  {
    ('a' <= c <= 'z') || ('A' <= c <= 'Z') || ('0' <= c <= '9') || c == '.' || c == '-'
  }

  /** `name.replace(/[^a-zA-Z0-9.-]/g, '_')`. */
  function Sanitize(name: string): (r: string)
    ensures |r| == |name|
    ensures forall i :: 0 <= i < |name| ==> r[i] == (if IsSafe(name[i]) then name[i] else '_')
  {
    seq(|name|, i requires 0 <= i < |name| => if IsSafe(name[i]) then name[i] else '_')
  }

  /** A sanitised name holds only safe characters and `_`; in particular no `/`. */
  lemma SanitizeOutput(name: string)
    ensures forall i :: 0 <= i < |name| ==> IsSafe(Sanitize(name)[i]) || Sanitize(name)[i] == '_'
    ensures '/' !in Sanitize(name)
  {
    var r := Sanitize(name);
    assert forall i :: 0 <= i < |r| ==> r[i] != '/';
  }

  /** Sanitising changes nothing in a name that is already safe, so sanitising twice is sanitising once. */
  lemma SanitizeIdempotent(name: string)
    ensures Sanitize(Sanitize(name)) == Sanitize(name)
  {
  }

  /** `file.name.split('.').pop()?.toLowerCase() || ''`: the lower-cased text after the last dot. */
  function FileTypeOf(name: string): string
  {
    var parts := Split(name, '.');
    Lower(parts[|parts| - 1])
  }

  /** A name `base.ext` has type `ext` lower-cased, whatever dots `base` holds. */
  lemma FileTypeOfExtension(base: string, ext: string)
    requires '.' !in ext
    ensures FileTypeOf(base + "." + ext) == Lower(ext)
  {
    var parts := Split(base, '.') + [ext];
    JoinAppend(Split(base, '.'), ext, '.');
    SplitJoin(parts, '.');
  }

  /** A name without a dot is its own type, lower-cased. */
  lemma FileTypeOfNoDot(name: string)
    requires '.' !in name
    ensures FileTypeOf(name) == Lower(name)
  {
    SplitJoin([name], '.');
  }

  /** A type never contains a dot. */
  lemma FileTypeHasNoDot(name: string)
    ensures '.' !in FileTypeOf(name)
  {
    var parts := Split(name, '.');
    var last := parts[|parts| - 1];
    assert '.' !in last;
    if '.' in Lower(last) {
      var i :| 0 <= i < |last| && Lower(last)[i] == '.';
      assert LowerChar(last[i]) == '.';
    }
  }

  function DigitChar(d: nat): (c: char)
    requires d < 10
    ensures '0' <= c <= '9' && c as int - '0' as int == d
  {
    ('0' as int + d) as char
  }

  /** `String(n)` for a non-negative integer: its decimal digits. */
  function NatToString(n: nat): (r: string)
    ensures |r| >= 1
    ensures forall i :: 0 <= i < |r| ==> '0' <= r[i] <= '9'
  {
    if n < 10 then [DigitChar(n)] else NatToString(n / 10) + [DigitChar(n % 10)]
  }

  /** Reading decimal digits back. */
  function DigitsValue(s: string): nat
    requires forall i :: 0 <= i < |s| ==> '0' <= s[i] <= '9'
  {
    if s == [] then 0 else 10 * DigitsValue(s[..|s| - 1]) + (s[|s| - 1] as int - '0' as int)
  }

  /** The decimal rendering of a timestamp is faithful. */
  lemma {:induction false} NatToStringValue(n: nat)
    ensures DigitsValue(NatToString(n)) == n
  {
    if n >= 10 {
      var q, d := n / 10, n % 10;
      NatToStringValue(q);
      var s := NatToString(n);
      assert s == NatToString(q) + [DigitChar(d)];
      assert s[..|s| - 1] == NatToString(q);
      assert s[|s| - 1] as int - '0' as int == d;
      assert DigitsValue(s) == 10 * DigitsValue(NatToString(q)) + d;
      assert n == 10 * q + d;
    }
  }

  /** `files/${currentPath || 'root'}/${Date.now()}_${sanitised name}`. */
  function StorageKey(currentPath: string, startedAt: nat, name: string): string
  {
    "files/" + ContainerKey(currentPath) + "/" + NatToString(startedAt) + "_" + Sanitize(name)
  }

  /** The key's last segment is the upload time and the sanitised name. */
  lemma StorageKeyLastSegment(currentPath: string, startedAt: nat, name: string)
    ensures var parts := Split(StorageKey(currentPath, startedAt, name), '/');
      parts[|parts| - 1] == NatToString(startedAt) + "_" + Sanitize(name)
  {
    var leaf := NatToString(startedAt) + "_" + Sanitize(name);
    SanitizeOutput(name);
    var digits := NatToString(startedAt);
    forall i | 0 <= i < |leaf| ensures leaf[i] != '/' {
      if i < |digits| {
        assert leaf[i] == digits[i];
      } else if i > |digits| {
        assert leaf[i] == Sanitize(name)[i - |digits| - 1];
      }
    }
    var front := "files/" + ContainerKey(currentPath);
    assert StorageKey(currentPath, startedAt, name) == front + "/" + leaf;
    SplitChild(front, leaf);
  }
}
