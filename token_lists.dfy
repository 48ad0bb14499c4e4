/**
 * The splits of the two token lists at their commas, one token at a time:
 * each lemma splits a prefix of a list by splitting off its last token.
 */
module TokenLists {
  import opened GoStrings

  lemma SplitTrueThrough12(s: string)
    requires s == "true,True,TRUE,T,t,1,yes,Yes,YES,on,On,ON"
    ensures Split(s, ',') == ["true", "True", "TRUE", "T", "t", "1", "yes", "Yes", "YES", "on", "On", "ON"]
  {
    var rest := "true,True,TRUE,T,t,1,yes,Yes,YES,on,On";
    assert s == rest + [','] + "ON";
    SplitSuffix(s, ',', rest, "ON");
    SplitTrueThrough11(rest);
  }

  lemma SplitTrueThrough11(s: string)
    requires s == "true,True,TRUE,T,t,1,yes,Yes,YES,on,On"
    ensures Split(s, ',') == ["true", "True", "TRUE", "T", "t", "1", "yes", "Yes", "YES", "on", "On"]
  {
    var rest := "true,True,TRUE,T,t,1,yes,Yes,YES,on";
    assert s == rest + [','] + "On";
    SplitSuffix(s, ',', rest, "On");
    SplitTrueThrough10(rest);
  }

  lemma SplitTrueThrough10(s: string)
    requires s == "true,True,TRUE,T,t,1,yes,Yes,YES,on"
    ensures Split(s, ',') == ["true", "True", "TRUE", "T", "t", "1", "yes", "Yes", "YES", "on"]
  {
    var rest := "true,True,TRUE,T,t,1,yes,Yes,YES";
    assert s == rest + [','] + "on";
    SplitSuffix(s, ',', rest, "on");
    SplitTrueThrough9(rest);
  }

  lemma SplitTrueThrough9(s: string)
    requires s == "true,True,TRUE,T,t,1,yes,Yes,YES"
    ensures Split(s, ',') == ["true", "True", "TRUE", "T", "t", "1", "yes", "Yes", "YES"]
  {
    var rest := "true,True,TRUE,T,t,1,yes,Yes";
    assert s == rest + [','] + "YES";
    SplitSuffix(s, ',', rest, "YES");
    SplitTrueThrough8(rest);
  }

  lemma SplitTrueThrough8(s: string)
    requires s == "true,True,TRUE,T,t,1,yes,Yes"
    ensures Split(s, ',') == ["true", "True", "TRUE", "T", "t", "1", "yes", "Yes"]
  {
    var rest := "true,True,TRUE,T,t,1,yes";
    assert s == rest + [','] + "Yes";
    SplitSuffix(s, ',', rest, "Yes");
    SplitTrueThrough7(rest);
  }

  lemma SplitTrueThrough7(s: string)
    requires s == "true,True,TRUE,T,t,1,yes"
    ensures Split(s, ',') == ["true", "True", "TRUE", "T", "t", "1", "yes"]
  {
    var rest := "true,True,TRUE,T,t,1";
    assert s == rest + [','] + "yes";
    SplitSuffix(s, ',', rest, "yes");
    SplitTrueThrough6(rest);
  }

  lemma SplitTrueThrough6(s: string)
    requires s == "true,True,TRUE,T,t,1"
    ensures Split(s, ',') == ["true", "True", "TRUE", "T", "t", "1"]
  {
    var rest := "true,True,TRUE,T,t";
    assert s == rest + [','] + "1";
    SplitSuffix(s, ',', rest, "1");
    SplitTrueThrough5(rest);
  }

  lemma SplitTrueThrough5(s: string)
    requires s == "true,True,TRUE,T,t"
    ensures Split(s, ',') == ["true", "True", "TRUE", "T", "t"]
  {
    var rest := "true,True,TRUE,T";
    assert s == rest + [','] + "t";
    SplitSuffix(s, ',', rest, "t");
    SplitTrueThrough4(rest);
  }

  lemma SplitTrueThrough4(s: string)
    requires s == "true,True,TRUE,T"
    ensures Split(s, ',') == ["true", "True", "TRUE", "T"]
  {
    var rest := "true,True,TRUE";
    assert s == rest + [','] + "T";
    SplitSuffix(s, ',', rest, "T");
    SplitTrueThrough3(rest);
  }

  lemma SplitTrueThrough3(s: string)
    requires s == "true,True,TRUE"
    ensures Split(s, ',') == ["true", "True", "TRUE"]
  {
    var rest := "true,True";
    assert s == rest + [','] + "TRUE";
    SplitSuffix(s, ',', rest, "TRUE");
    SplitTrueThrough2(rest);
  }

  lemma SplitTrueThrough2(s: string)
    requires s == "true,True"
    ensures Split(s, ',') == ["true", "True"]
  {
    var rest := "true";
    assert s == rest + [','] + "True";
    SplitSuffix(s, ',', rest, "True");
    SplitTrueThrough1(rest);
  }

  lemma SplitTrueThrough1(s: string)
    requires s == "true"
    ensures Split(s, ',') == ["true"]
  {
    SplitWhole(s, ',');
  }

  lemma SplitFalseThrough12(s: string)
    requires s == "false,False,FALSE,F,f,0,no,No,NO,off,Off,OFF"
    ensures Split(s, ',') == ["false", "False", "FALSE", "F", "f", "0", "no", "No", "NO", "off", "Off", "OFF"]
  {
    var rest := "false,False,FALSE,F,f,0,no,No,NO,off,Off";
    assert s == rest + [','] + "OFF";
    SplitSuffix(s, ',', rest, "OFF");
    SplitFalseThrough11(rest);
  }

  lemma SplitFalseThrough11(s: string)
    requires s == "false,False,FALSE,F,f,0,no,No,NO,off,Off"
    ensures Split(s, ',') == ["false", "False", "FALSE", "F", "f", "0", "no", "No", "NO", "off", "Off"]
  {
    var rest := "false,False,FALSE,F,f,0,no,No,NO,off";
    assert s == rest + [','] + "Off";
    SplitSuffix(s, ',', rest, "Off");
    SplitFalseThrough10(rest);
  }

  lemma SplitFalseThrough10(s: string)
    requires s == "false,False,FALSE,F,f,0,no,No,NO,off"
    ensures Split(s, ',') == ["false", "False", "FALSE", "F", "f", "0", "no", "No", "NO", "off"]
  {
    var rest := "false,False,FALSE,F,f,0,no,No,NO";
    assert s == rest + [','] + "off";
    SplitSuffix(s, ',', rest, "off");
    SplitFalseThrough9(rest);
  }

  lemma SplitFalseThrough9(s: string)
    requires s == "false,False,FALSE,F,f,0,no,No,NO"
    ensures Split(s, ',') == ["false", "False", "FALSE", "F", "f", "0", "no", "No", "NO"]
  {
    var rest := "false,False,FALSE,F,f,0,no,No";
    assert s == rest + [','] + "NO";
    SplitSuffix(s, ',', rest, "NO");
    SplitFalseThrough8(rest);
  }

  lemma SplitFalseThrough8(s: string)
    requires s == "false,False,FALSE,F,f,0,no,No"
    ensures Split(s, ',') == ["false", "False", "FALSE", "F", "f", "0", "no", "No"]
  {
    var rest := "false,False,FALSE,F,f,0,no";
    assert s == rest + [','] + "No";
    SplitSuffix(s, ',', rest, "No");
    SplitFalseThrough7(rest);
  }

  lemma SplitFalseThrough7(s: string)
    requires s == "false,False,FALSE,F,f,0,no"
    ensures Split(s, ',') == ["false", "False", "FALSE", "F", "f", "0", "no"]
  {
    var rest := "false,False,FALSE,F,f,0";
    assert s == rest + [','] + "no";
    SplitSuffix(s, ',', rest, "no");
    SplitFalseThrough6(rest);
  }

  lemma SplitFalseThrough6(s: string)
    requires s == "false,False,FALSE,F,f,0"
    ensures Split(s, ',') == ["false", "False", "FALSE", "F", "f", "0"]
  {
    var rest := "false,False,FALSE,F,f";
    assert s == rest + [','] + "0";
    SplitSuffix(s, ',', rest, "0");
    SplitFalseThrough5(rest);
  }

  lemma SplitFalseThrough5(s: string)
    requires s == "false,False,FALSE,F,f"
    ensures Split(s, ',') == ["false", "False", "FALSE", "F", "f"]
  {
    var rest := "false,False,FALSE,F";
    assert s == rest + [','] + "f";
    SplitSuffix(s, ',', rest, "f");
    SplitFalseThrough4(rest);
  }

  lemma SplitFalseThrough4(s: string)
    requires s == "false,False,FALSE,F"
    ensures Split(s, ',') == ["false", "False", "FALSE", "F"]
  {
    var rest := "false,False,FALSE";
    assert s == rest + [','] + "F";
    SplitSuffix(s, ',', rest, "F");
    SplitFalseThrough3(rest);
  }

  lemma SplitFalseThrough3(s: string)
    requires s == "false,False,FALSE"
    ensures Split(s, ',') == ["false", "False", "FALSE"]
  {
    var rest := "false,False";
    assert s == rest + [','] + "FALSE";
    SplitSuffix(s, ',', rest, "FALSE");
    SplitFalseThrough2(rest);
  }

  lemma SplitFalseThrough2(s: string)
    requires s == "false,False"
    ensures Split(s, ',') == ["false", "False"]
  {
    var rest := "false";
    assert s == rest + [','] + "False";
    SplitSuffix(s, ',', rest, "False");
    SplitFalseThrough1(rest);
  }

  lemma SplitFalseThrough1(s: string)
    requires s == "false"
    ensures Split(s, ',') == ["false"]
  {
    SplitWhole(s, ',');
  }
}
