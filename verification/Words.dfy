/** Command lines as words joined by single spaces. */
module Words {

  function Join(words: seq<string>): string {
    if |words| == 0 then ""
    else if |words| == 1 then words[0]
    else words[0] + " " + Join(words[1..])
  }

  lemma {:induction false} JoinSnoc(words: seq<string>, last: string)
    requires words != []
    ensures Join(words + [last]) == Join(words) + " " + last
  {
    var all := words + [last];
    assert all[1..] == words[1..] + [last];
    if |words| == 1 {
      assert all[1..] == [last];
    } else {
      JoinSnoc(words[1..], last);
      assert words[0] + " " + (Join(words[1..]) + " " + last) == words[0] + " " + Join(words[1..]) + " " + last;
    }
  }
}
