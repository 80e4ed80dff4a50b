/**
 * Field-name parsing and regex building shared by the loaders and the
 * extraction code (helpers.py).  A UK Biobank baseline column is named
 * "F-I.N": field id F, instance I, array index N.
 */
module Helpers {
  import opened Common

  /** The three parts of a canonical column name, when it has that shape. */
  function CanonicalParts(name: string): Option<(string, string, string)>
  {
    var dotted := Split(name, '.');
    var idInst := Split(dotted[0], '-');
    if |idInst| == 2 && |dotted| >= 2 then Some((idInst[0], idInst[1], dotted[1])) else None
  }

  /**
   * infer_field_info: [field, instance, n] as integers.  The unpacking into two
   * names and the index [1] are guarded; when either fails the id is the text
   * before the first '-' and instance and n are 0.  The int() conversions are
   * not guarded, so a non-numeric id raises ValueError.
   */
  function InferFieldInfo(name: string): (r: Result<seq<int>>)
    ensures r.Ok? ==> |r.value| == 3
    ensures r.Err? ==> r.error == ValueError
    ensures r.Ok? && '.' !in name ==> r.value[1] == 0 && r.value[2] == 0
  {
    match CanonicalParts(name)
    case Some((f, i, n)) =>
      (match (ParseInt(f), ParseInt(i), ParseInt(n))
       case (Ok(fv), Ok(iv), Ok(nv)) => Ok([fv, iv, nv])
       case _ => Err(ValueError))
    case None =>
      (match ParseInt(Split(name, '-')[0])
       case Ok(fv) => Ok([fv, 0, 0])
       case Err(e) => Err(e))
  }

  lemma DigitsHaveNoSeparator(s: string, c: char)
    requires AllDigits(s) && !IsDigit(c)
    ensures c !in s
  {
  }

  /** "F-I.N" parses to [F, I, N]. */
  lemma InferCanonical(f: nat, i: nat, n: nat)
    ensures InferFieldInfo(Show(f) + "-" + Show(i) + "." + Show(n)) == Ok([f, i, n])
  {
    var head := Show(f) + "-" + Show(i);
    var name := head + "." + Show(n);
    DigitsHaveNoSeparator(Show(f), '-');
    DigitsHaveNoSeparator(Show(f), '.');
    DigitsHaveNoSeparator(Show(i), '.');
    DigitsHaveNoSeparator(Show(i), '-');
    DigitsHaveNoSeparator(Show(n), '.');
    assert '.' !in head;
    SplitAfterSeparator(head, '.', Show(n));
    assert Split(name, '.') == [head, Show(n)];
    SplitAfterSeparator(Show(f), '-', Show(i));
    assert Split(head, '-') == [Show(f), Show(i)];
    ParseShow(f);
    ParseShow(i);
    ParseShow(n);
  }

  /** A bare "F" parses to [F, 0, 0]. */
  lemma InferBare(f: nat)
    ensures InferFieldInfo(Show(f)) == Ok([f, 0, 0])
  {
    DigitsHaveNoSeparator(Show(f), '.');
    DigitsHaveNoSeparator(Show(f), '-');
    ParseShow(f);
  }

  /** "F-I" without an array index falls back and loses the instance: [F, 0, 0]. */
  lemma InferNoArrayIndex(f: nat, i: nat)
    ensures InferFieldInfo(Show(f) + "-" + Show(i)) == Ok([f, 0, 0])
  {
    var name := Show(f) + "-" + Show(i);
    DigitsHaveNoSeparator(Show(f), '.');
    DigitsHaveNoSeparator(Show(i), '.');
    DigitsHaveNoSeparator(Show(f), '-');
    DigitsHaveNoSeparator(Show(i), '-');
    assert '.' !in name;
    SplitAfterSeparator(Show(f), '-', Show(i));
    ParseShow(f);
  }

  /** "F.N" without an instance falls back to the whole name as the id, which int() rejects. */
  lemma InferNoInstance(f: nat, n: nat)
    ensures InferFieldInfo(Show(f) + "." + Show(n)) == Err(ValueError)
  {
    var name := Show(f) + "." + Show(n);
    DigitsHaveNoSeparator(Show(f), '.');
    DigitsHaveNoSeparator(Show(f), '-');
    DigitsHaveNoSeparator(Show(n), '-');
    DigitsHaveNoSeparator(Show(n), '.');
    SplitAfterSeparator(Show(f), '.', Show(n));
    assert '-' !in name;
    assert name[|Show(f)|] == '.';
    assert !AllDigits(name);
    assert name[0] == Show(f)[0];
  }

  /**
   * word_to_regex: a whitespace-preceded occurrence of the word, or the word at
   * the start of the text.
   */
  function WordToRegex(word: string): (r: string)
    ensures |r| == 2 * |word| + 4
  {
    "\\s" + word + "|^" + word
  }

  /** The pattern is exactly two alternatives, "\s"+w and "^"+w, when w holds no '|'. */
  lemma WordToRegexAlternatives(word: string)
    requires '|' !in word
    ensures Split(WordToRegex(word), '|') == ["\\s" + word, "^" + word]
  {
    var left, right := "\\s" + word, "^" + word;
    assert WordToRegex(word) == left + "|" + right;
    assert '|' !in left;
    assert '|' !in right;
    SplitAfterSeparator(left, '|', right);
  }
}
