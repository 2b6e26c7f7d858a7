TestResult.DisplayName,TestResult.Outcome,TestResult.Duration,TestResult.ResourceCount,RandomSeed
SlugList.LoadAfterEntry (correctness),Passed,00:00:01.2202232,745248,0
SlugList.ParsePaddedJoin (correctness),Passed,00:00:00.2839382,545950,0
SlugList.LoadAfterTrailingComma (correctness),Passed,00:00:00.2275643,605041,0
Text.TrimStart (well-formedness),Passed,00:00:00.2256671,287990,0
SlugList.SavedListRoundTrip (correctness),Passed,00:00:00.1789485,413352,0
SlugList.MapSeq (well-formedness),Passed,00:00:00.1258013,37960,0
SlugList.MapSeqAppend (correctness),Passed,00:00:00.1239988,50532,0
Text.StartsWith (well-formedness),Passed,00:00:00.1191929,7559,0
Text.Join (well-formedness),Passed,00:00:00.1134627,14615,0
SlugList.LoadedBlank (correctness),Passed,00:00:00.1055129,312148,0
SlugList.ParseJoinHead (correctness),Passed,00:00:00.1022663,207011,0
SlugList.CurrentSlugsListed (correctness),Passed,00:00:00.0866994,230554,0
SlugList.ParsePadded (correctness),Passed,00:00:00.0786975,212701,0
SlugList.JoinSplit (correctness),Passed,00:00:00.0745210,260143,0
Text.TrimEnd (well-formedness),Passed,00:00:00.0720276,33886,0
SlugList.ParsedEntriesAreSlugs (correctness),Passed,00:00:00.0672630,153789,0
Text.TrimInfix (correctness),Passed,00:00:00.0668633,286171,0
SlugList.CollectCurrentSlugs (correctness),Passed,00:00:00.0633302,84399,0
SlugList.SplitAppend (correctness),Passed,00:00:00.0607377,197580,0
SlugList.ParseJoinHead (well-formedness),Passed,00:00:00.0550328,56257,0
SlugList.ZeroDirectoryDropped (correctness),Passed,00:00:00.0544447,128568,0
SlugList.SavedListRoundTrip (well-formedness),Passed,00:00:00.0542660,51616,0
SlugList.ParsePiece (correctness),Passed,00:00:00.0494891,83123,0
SlugList.LoadAppendsParsedList (correctness),Passed,00:00:00.0483042,92006,0
Text.Trim (well-formedness),Passed,00:00:00.0477113,76518,0
SlugList.LastSlash (well-formedness),Passed,00:00:00.0463561,101388,0
SlugList.LoadedTextParses (correctness),Passed,00:00:00.0462319,115756,0
SlugList.ParsePaddedJoin (well-formedness),Passed,00:00:00.0454595,52780,0
SlugList.AppendAssoc (correctness),Passed,00:00:00.0450163,9160,0
SlugList.TrimAllAppend (correctness),Passed,00:00:00.0447583,49380,0
SlugList.KeepTruthyAppend (correctness),Passed,00:00:00.0439721,145181,0
SlugList.PaddedSlugPiece (correctness),Passed,00:00:00.0439665,76888,0
SlugList.CurrentSlugsAppend (correctness),Passed,00:00:00.0415907,92749,0
SlugList.ZeroDirectoryListed (correctness),Passed,00:00:00.0412499,141185,0
SlugList.ParseTrailingComma (correctness),Passed,00:00:00.0386690,86501,0
SlugList.ParseAppend (correctness),Passed,00:00:00.0358494,61836,0
SlugList.KeepTruthy (well-formedness),Passed,00:00:00.0349146,66400,0
Text.TrimEndPadding (correctness),Passed,00:00:00.0342127,108875,0
SlugList.LoadedTextParses (well-formedness),Passed,00:00:00.0341099,73504,0
SlugList.ParseOfSpace (correctness),Passed,00:00:00.0330296,68359,0
SlugList.TrimAll (well-formedness),Passed,00:00:00.0311378,58650,0
SlugList.ParsedEntriesAreSlugs (well-formedness),Passed,00:00:00.0301981,51231,0
SlugList.TrailingTrimmed (correctness),Passed,00:00:00.0301632,92069,0
Text.TrimDropsLeading (correctness),Passed,00:00:00.0299455,50971,0
SlugList.DirnameOfPluginFile (correctness),Passed,00:00:00.0288234,37864,0
SlugList.CurrentSlugsSnoc (correctness),Passed,00:00:00.0283597,33950,0
Text.TrimPadding (correctness),Passed,00:00:00.0270960,36325,0
SlugList.CurrentSlugs (well-formedness),Passed,00:00:00.0269903,54929,0
SlugList.ZeroIsNoEntry (correctness),Passed,00:00:00.0264759,65901,0
Text.TrimLast (correctness),Passed,00:00:00.0258756,46612,0
SlugList.Split (well-formedness),Passed,00:00:00.0240424,42909,0
SlugList.CutAfterLastComma (correctness),Passed,00:00:00.0232563,66342,0
SlugList.SlugTextarea.LoadCurrentSlugs (correctness),Passed,00:00:00.0227889,67189,0
Text.TrimStartPadding (correctness),Passed,00:00:00.0227452,47929,0
Text.TrimInfix (well-formedness),Passed,00:00:00.0224662,28314,0
SlugList.SlugTextarea.LoadCurrentSlugs (well-formedness),Passed,00:00:00.0213245,50485,0
Text.TrimDropsLeading (well-formedness),Passed,00:00:00.0209714,20312,0
Text.TrimEndOfSpace (correctness),Passed,00:00:00.0205844,20143,0
SlugList.SplitWithoutSeparator (correctness),Passed,00:00:00.0203166,37139,0
SlugList.CurrentSlugsListed (well-formedness),Passed,00:00:00.0197813,34767,0
Text.TrimEmptyIffAllSpace (correctness),Passed,00:00:00.0193727,31010,0
SlugList.CommaBeforeTrailing (correctness),Passed,00:00:00.0178922,43483,0
Text.ConventionalMainFile (well-formedness),Passed,00:00:00.0175877,32813,0
Text.TrimStartOfSpace (correctness),Passed,00:00:00.0161840,25366,0
Text.TrimLast (well-formedness),Passed,00:00:00.0155644,22367,0
SlugList.CommaBeforeTrailing (well-formedness),Passed,00:00:00.0152102,46017,0
SlugList.TrailingTrimmed (well-formedness),Passed,00:00:00.0138457,42501,0
SlugList.SlugTextarea._ctor (correctness),Passed,00:00:00.0125347,20456,0
SlugList.Dirname (well-formedness),Passed,00:00:00.0124090,18332,0
Text.TrimOfTrimmed (well-formedness),Passed,00:00:00.0118700,18782,0
Text.TrimOfTrimmed (correctness),Passed,00:00:00.0115442,21122,0
SlugList.SavedSlug (well-formedness),Passed,00:00:00.0114864,19359,0
SlugList.CutAtLastComma (correctness),Passed,00:00:00.0106094,17950,0
SlugList.CommaSpace (correctness),Passed,00:00:00.0095757,22573,0
SlugList.CutAtLastComma (well-formedness),Passed,00:00:00.0079235,13011,0
SlugList.SingleSpace (correctness),Passed,00:00:00.0074542,11565,0
SlugList.EndsWithComma (well-formedness),Passed,00:00:00.0062748,8095,0
