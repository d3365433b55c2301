/**
 Renaming of the sections of merged checkpoints (util/checkpoint_aggregator.py): the
 checkpoint's number, padded with zeros to a fixed width, is inserted after every "cpu".
 */
module SectionNames {
  import opened Text

  predicate StartsCpu(s: string) {
    |s| >= 3 && s[0] == 'c' && s[1] == 'p' && s[2] == 'u'
  }

  /** `re.search("cpu", s)` */
  predicate HasCpu(s: string) {
    s != "" && (StartsCpu(s) || HasCpu(s[1..]))
  }

  /** `re.sub("cpu", "cpu" + ins, s)` */
  function InsertAfterCpu(s: string, ins: string): string {
    if s == "" then ""
    else if StartsCpu(s) then "cpu" + ins + InsertAfterCpu(s[3..], ins)
    else [s[0]] + InsertAfterCpu(s[1..], ins)
  }

  /** Removes the `w` characters after every "cpu". */
  function RemoveAfterCpu(t: string, w: nat): string {
    if t == "" then ""
    else if StartsCpu(t) && |t| >= 3 + w then "cpu" + RemoveAfterCpu(t[3 + w..], w)
    else [t[0]] + RemoveAfterCpu(t[1..], w)
  }

  /** Inserting neither creates nor destroys an occurrence at the front. */
  lemma {:induction false} StartsSame(s: string, ins: string)
    ensures StartsCpu(InsertAfterCpu(s, ins)) <==> StartsCpu(s)
  {
    if |s| >= 3 && !StartsCpu(s) {
      assert s[1..][1..] == s[2..] && s[2..][0] == s[2];
      assert InsertAfterCpu(s[1..], ins)[0] == s[1] && InsertAfterCpu(s[2..], ins)[0] == s[2];
    } else if |s| == 2 {
      assert InsertAfterCpu(s[1..], ins) == [s[1]];
    }
  }

  lemma {:induction false} RemoveInserted(s: string, ins: string)
    ensures RemoveAfterCpu(InsertAfterCpu(s, ins), |ins|) == s
  {
    if s != "" {
      var t := InsertAfterCpu(s, ins);
      StartsSame(s, ins);
      if StartsCpu(s) {
        assert t[3 + |ins|..] == InsertAfterCpu(s[3..], ins);
        RemoveInserted(s[3..], ins);
      } else {
        assert t[1..] == InsertAfterCpu(s[1..], ins);
        RemoveInserted(s[1..], ins);
      }
    }
  }

  /** The text inserted after the first "cpu". */
  lemma {:induction false} InsertedText(s: string, a: string, b: string, s': string)
    requires |a| == |b| && HasCpu(s) && HasCpu(s')
    requires InsertAfterCpu(s, a) == InsertAfterCpu(s', b)
    ensures a == b
  {
    var t := InsertAfterCpu(s, a);
    StartsSame(s, a);
    StartsSame(s', b);
    if StartsCpu(s) {
      assert t[3..3 + |a|] == a;
      assert t[3..3 + |b|] == b;
    } else {
      assert t[1..] == InsertAfterCpu(s[1..], a) == InsertAfterCpu(s'[1..], b);
      InsertedText(s[1..], a, b, s'[1..]);
    }
  }

  lemma {:induction false} InsertKeepsCpu(s: string, ins: string)
    ensures HasCpu(s) ==> HasCpu(InsertAfterCpu(s, ins))
  {
    if s != "" {
      StartsSame(s, ins);
      if !StartsCpu(s) {
        assert InsertAfterCpu(s, ins)[1..] == InsertAfterCpu(s[1..], ins);
        InsertKeepsCpu(s[1..], ins);
      }
    }
  }

  lemma {:induction false} HasCpuIff(s: string)
    ensures HasCpu(s) <==> exists a, b :: s == a + "cpu" + b
  {
    if HasCpu(s) {
      if StartsCpu(s) {
        assert s == "" + "cpu" + s[3..];
      } else {
        HasCpuIff(s[1..]);
        var a, b :| s[1..] == a + "cpu" + b;
        assert s == ([s[0]] + a) + "cpu" + b;
      }
    }
    if a, b :| s == a + "cpu" + b {
      if a != "" {
        HasCpuIff(s[1..]);
        assert s[1..] == a[1..] + "cpu" + b;
      }
    }
  }

  /** A name without "cpu" stays as it is. */
  lemma {:induction false} InsertNothing(s: string, ins: string)
    requires !HasCpu(s)
    ensures InsertAfterCpu(s, ins) == s
  {
    if s != "" {
      InsertNothing(s[1..], ins);
      assert [s[0]] + s[1..] == s;
    }
  }

  /** The text goes right behind the first "cpu", and what follows is treated alike. */
  lemma {:induction false} InsertBehindFirst(a: string, b: string, ins: string)
    requires !HasCpu(a + "cp")
    ensures InsertAfterCpu(a + "cpu" + b, ins) == a + "cpu" + ins + InsertAfterCpu(b, ins)
  {
    var s := a + "cpu" + b;
    if a == "" {
      assert s[3..] == b;
    } else {
      assert (a + "cp")[1..] == a[1..] + "cp" && s[1..] == a[1..] + "cpu" + b;
      assert StartsCpu(s) ==> StartsCpu(a + "cp");
      InsertBehindFirst(a[1..], b, ins);
      assert [a[0]] + a[1..] == a;
    }
  }

  /** `str(i).zfill(w)` */
  function Zfill(i: nat, w: nat): string {
    if |Decimal(i)| >= w then Decimal(i) else Zeros(w - |Decimal(i)|) + Decimal(i)
  }

  function Width(n: nat): nat {
    if n == 0 then |"-1"| else |Decimal(n - 1)|
  }

  lemma {:induction false} DecimalMonotone(i: nat, j: nat)
    requires i <= j
    ensures |Decimal(i)| <= |Decimal(j)|
  {
    if j >= 10 && i >= 10 {
      DecimalMonotone(i / 10, j / 10);
    }
  }

  lemma {:induction false} ZfillValue(i: nat, n: nat)
    requires i < n
    ensures |Zfill(i, Width(n))| == Width(n)
    ensures AllDigits(Zfill(i, Width(n))) && Value(Zfill(i, Width(n))) == i
  {
    DecimalMonotone(i, n - 1);
    ValueOfDecimal(i);
    if |Decimal(i)| < Width(n) {
      ValueWithZeros(Width(n) - |Decimal(i)|, Decimal(i));
    }
  }

  /** The width is just enough: the last number is not padded. */
  lemma {:induction false} LastIsNotPadded(n: nat)
    requires n > 0
    ensures Zfill(n - 1, Width(n)) == Decimal(n - 1)
  {
  }

  /** The name of section `sec` of checkpoint `i` out of `n` in the merged file. */
  function Rename(i: nat, n: nat, sec: string): string {
    InsertAfterCpu(sec, Zfill(i, Width(n)))
  }

  /** Different sections, and sections of different checkpoints, keep different names. */
  lemma {:induction false} RenameInjective(n: nat, i: nat, j: nat, a: string, b: string)
    requires i < n && j < n && HasCpu(a) && HasCpu(b)
    requires Rename(i, n, a) == Rename(j, n, b)
    ensures i == j && a == b
  {
    ZfillValue(i, n);
    ZfillValue(j, n);
    InsertedText(a, Zfill(i, Width(n)), Zfill(j, Width(n)), b);
    RemoveInserted(a, Zfill(i, Width(n)));
    RemoveInserted(b, Zfill(j, Width(n)));
  }
}
