TestResult.DisplayName,TestResult.Outcome,TestResult.Duration,TestResult.ResourceCount,RandomSeed
ActivityCard.UnitOnlyLabels (correctness),Passed,00:00:00.3311214,1452996,3
ActivityCard.ActivityColor (well-formedness),Passed,00:00:00.2660107,76625,3
ActivityCard.ActivityIcon (well-formedness),Passed,00:00:00.2652688,77714,3
ActivityCard.ReadOnlyLabels (correctness),Passed,00:00:00.2223029,357983,3
ActivityCard.HoursMinutesLabelIs (correctness),Passed,00:00:00.1404522,348215,3
ActivityCard.ReadHoursThenMinutes (correctness),Passed,00:00:00.0757208,141067,3
ActivityCard.HoursMinutesLabelIs (well-formedness),Passed,00:00:00.0688092,33955,3
ActivityCard.FormatDurationRoundTrip (correctness),Passed,00:00:00.0540030,94561,3
ActivityCard.FormatDuration (well-formedness),Passed,00:00:00.0516794,38364,3
ActivityCard.ReadHoursMinutesLabel (correctness),Passed,00:00:00.0506589,67893,3
ActivityCard.MinutesOnlyLabel (correctness),Passed,00:00:00.0441276,66610,3
ActivityCard.ReadAfterNumber (correctness),Passed,00:00:00.0408129,47230,3
ActivityCard.ReadMinutesOf (correctness),Passed,00:00:00.0385356,43097,3
ActivityCard.MinutesLabelIs (correctness),Passed,00:00:00.0336242,26881,3
ActivityCard.ReadAfterNumber (well-formedness),Passed,00:00:00.0333560,33663,3
ActivityCard.ReadMinutes (well-formedness),Passed,00:00:00.0328873,28547,3
ActivityCard.LabelOfHoursMinutes (correctness),Passed,00:00:00.0325587,59889,3
ActivityCard.ReadUnit (well-formedness),Passed,00:00:00.0307615,30543,3
ActivityCard.ReadDuration (well-formedness),Passed,00:00:00.0281402,33010,3
ActivityCard.HoursAndMinutes (correctness),Passed,00:00:00.0277424,13685,3
ActivityCard.HoursAndMinutes (well-formedness),Passed,00:00:00.0138221,4597,3
