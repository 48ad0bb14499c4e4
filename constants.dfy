/** The comma-separated token lists the boolean classifier is built from. */
module Constants {
  /** Spellings read as true; any positive number is true as well. */
  const TrueValues: string := "true,True,TRUE,T,t,1,yes,Yes,YES,on,On,ON"

  /** Spellings read as false; zero and any negative number are false as well. */
  const FalseValues: string := "false,False,FALSE,F,f,0,no,No,NO,off,Off,OFF"
}
