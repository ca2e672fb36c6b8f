/** What an evidence item may say, character by character: which paths are safe, what lower case is, and how many
    bytes a citation takes. */
module EvidenceText {
  import opened Common
  import opened Citations

  // ---- Paths

  predicate Separator(c: char) {
    c == '/' || c == '\\'
  }

  /** Two dots between separators or the ends of the path. */
  predicate ParentStepAt(path: string, i: nat) {
    && i + 1 < |path| && path[i] == '.' && path[i + 1] == '.'
    && (i == 0 || Separator(path[i - 1]))
    && (i + 2 == |path| || Separator(path[i + 2]))
  }

  /** Two dots between slashes or the ends, none open to the left at the beginning. */
  predicate StepAt(s: string, i: nat) {
    && i + 1 < |s| && s[i] == '.' && s[i + 1] == '.' && (i == 0 || s[i - 1] == '/') && (i + 2 == |s| || s[i + 2] == '/')
  }

  predicate StartsWithStep(s: string) {
    StepAt(s, 0)
  }

  lemma {:induction false} FirstPart(s: string)
    ensures Parts(s)[0] == ".." <==> StartsWithStep(s)
    ensures Parts(s)[0] == "." <==> |s| >= 1 && s[0] == '.' && (|s| == 1 || s[1] == '/')
    ensures Parts(s)[0] == "" <==> s == "" || s[0] == '/'
  {
    if s != "" {
      FirstPart(s[1..]);
      if s[0] != '/' {
        var head := Parts(s[1..])[0];
        assert Parts(s)[0] == [s[0]] + head;
        assert ([s[0]] + head)[1..] == head;
        assert head == "." <==> |s| >= 2 && s[1] == '.' && (|s| == 2 || s[2] == '/');
        assert head == "" <==> |s| == 1 || s[1] == '/';
        assert Parts(s)[0] == ".." ==> Parts(s)[0][0] == s[0] && head == ".";
        assert Parts(s)[0] == "." ==> Parts(s)[0][0] == s[0] && head == "";
        assert s[0] == '.' && head == "." ==> [s[0]] + head == "..";
        assert s[0] == '.' && head == "" ==> [s[0]] + head == ".";
      }
    }
  }

  lemma StepInTail(s: string, i: nat)
    requires s != ""
    ensures StepAt(s, i + 1) <==> StepAt(s[1..], i) && (i == 0 ==> s[0] == '/')
  {
  }

  lemma {:induction false} StepsAreParts(s: string)
    ensures ".." in Parts(s) <==> exists i :: 0 <= i < |s| && StepAt(s, i)
    ensures ".." in Parts(s)[1..] <==> exists i :: 0 < i < |s| && StepAt(s, i)
  {
    FirstPart(s);
    if s == "" {
      return;
    }
    var rest := Parts(s[1..]);
    StepsAreParts(s[1..]);
    FirstPart(s[1..]);
    forall i | 0 <= i ensures StepAt(s, i + 1) <==> StepAt(s[1..], i) && (i == 0 ==> s[0] == '/') {
      StepInTail(s, i);
    }
    if s[0] == '/' {
      assert Parts(s)[1..] == rest;
    } else {
      assert Parts(s)[1..] == rest[1..];
    }
    if i :| 0 < i < |s| && StepAt(s, i) {
      assert StepAt(s[1..], i - 1);
    }
    if ".." in Parts(s)[1..] {
      if s[0] == '/' {
        var i :| 0 <= i < |s[1..]| && StepAt(s[1..], i);
        assert StepAt(s, i + 1);
      } else {
        var i :| 0 < i < |s[1..]| && StepAt(s[1..], i);
        assert StepAt(s, i + 1);
      }
    }
    assert Parts(s) == [Parts(s)[0]] + Parts(s)[1..];
  }

  /** A path is safe exactly when it holds no semicolon and no closing bracket, does not begin with a slash of either
      kind, and has no parent step between slashes of either kind. */
  lemma SafePathExactlyWhen(path: string)
    ensures SafePath(path) <==>
            && (forall i :: 0 <= i < |path| ==> path[i] != ';' && path[i] != ']')
            && (path == "" || !Separator(path[0]))
            && (forall i :: 0 <= i < |path| ==> !ParentStepAt(path, i))
  {
    var s := Slashes(path);
    StepsAreParts(s);
    forall i | 0 <= i < |path| ensures StepAt(s, i) <==> ParentStepAt(path, i) {
    }
  }

  // ---- Letters

  const CAPITALS := "ABCDEFGHIJKLMNOPQRSTUVWXYZ"
  const SMALL := "abcdefghijklmnopqrstuvwxyz"

  /** Every capital becomes its small letter and every other character stays. */
  lemma LowerExactly(s: string, i: nat, k: nat)
    requires i < |s| && k < 26
    ensures s[i] == CAPITALS[k] ==> Lower(s)[i] == SMALL[k]
    ensures !('A' <= s[i] <= 'Z') ==> Lower(s)[i] == s[i]
  {
    AlphabetIs(k);
  }

  lemma AlphabetIs(k: nat)
    requires k < 26
    ensures CAPITALS[k] as int == 'A' as int + k && SMALL[k] as int == 'a' as int + k
  {
  }

  // ---- Bytes

  /** The UTF-8 form of a code point, section 3 of RFC 3629. */
  function Utf8(n: nat): seq<int>
    requires n < 0x11_0000
  {
    if n < 0x80 then [n]
    else if n < 0x800 then [0xC0 + n / 0x40, 0x80 + n % 0x40]
    else if n < 0x1_0000 then [0xE0 + n / 0x40 / 0x40, 0x80 + n / 0x40 % 0x40, 0x80 + n % 0x40]
    else [0xF0 + n / 0x40 / 0x40 / 0x40, 0x80 + n / 0x40 / 0x40 % 0x40, 0x80 + n / 0x40 % 0x40, 0x80 + n % 0x40]
  }

  /** The code point of a UTF-8 form, by its first byte. */
  function CodePoint(b: seq<int>): int {
    if |b| == 1 then b[0]
    else if |b| == 2 then (b[0] - 0xC0) * 0x40 + (b[1] - 0x80)
    else if |b| == 3 then (b[0] - 0xE0) * 0x1000 + (b[1] - 0x80) * 0x40 + (b[2] - 0x80)
    else if |b| == 4 then
      (b[0] - 0xF0) * 0x4_0000 + (b[1] - 0x80) * 0x1000 + (b[2] - 0x80) * 0x40 + (b[3] - 0x80)
    else -1
  }

  function Encoded(s: string): seq<int> {
    if s == "" then [] else Utf8(s[0] as nat) + Encoded(s[1..])
  }

  /** The length the printer checks is the number of bytes of the text's UTF-8 form, and that form reads back. */
  lemma {:induction false} BytesAreCounted(s: string)
    ensures |Encoded(s)| == Utf8Length(s)
    ensures forall i :: 0 <= i < |s| ==> CodePoint(Utf8(s[i] as nat)) == s[i] as nat
  {
    if s != "" {
      BytesAreCounted(s[1..]);
      Utf8ReadsBack(s[0] as nat);
    }
  }

  lemma Sixth(n: nat)
    ensures n == n / 0x40 * 0x40 + n % 0x40 && 0 <= n % 0x40 < 0x40
  {
  }

  lemma Utf8ReadsBack(n: nat)
    requires n < 0x11_0000
    ensures CodePoint(Utf8(n)) == n && forall b :: b in Utf8(n) ==> 0 <= b < 0x100
  {
    var a := n / 0x40;
    var b := a / 0x40;
    Sixth(n);
    Sixth(a);
    Sixth(b);
  }

  /** No printed citation takes more than 600 bytes. */
  lemma RenderedFitInBytes(item: Item, source: string)
    requires Render(item, source).Some?
    ensures |Encoded(Render(item, source).value)| <= 600
  {
    BytesAreCounted(Render(item, source).value);
  }
}
